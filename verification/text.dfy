/** The string operations the handlers apply to headers and decoded credentials. */
module Text {
  import opened Wrappers

  /** `s.split(sep)` with a one-character separator, as JavaScript's `String.prototype.split`
      and Python's `str.split` both define it: every occurrence of `sep` cuts, and empty
      pieces (leading, trailing, between two separators) are kept. The pieces are free of
      the separator and glue back to `s`; `SplitUnique` shows that pins them down. */
  function Split(s: string, sep: char): (pieces: seq<string>)
    ensures |pieces| >= 1
    ensures forall i :: 0 <= i < |pieces| ==> sep !in pieces[i]
    ensures Join(pieces, sep) == s
    decreases |s|
  {
    if |s| == 0 then [""]
    else
      var rest := Split(s[1..], sep);
      assert s == [s[0]] + s[1..];
      if s[0] == sep then
        assert ([""] + rest)[1..] == rest;
        [""] + rest
      else
        var pieces := [[s[0]] + rest[0]] + rest[1..];
        assert pieces[1..] == rest[1..];
        assert |rest| > 1 ==> Join(pieces, sep) == [s[0]] + (rest[0] + [sep] + Join(rest[1..], sep));
        pieces
  }

  /** Glues pieces back together with `sep` between neighbours (`pieces.join(sep)`). */
  function Join(pieces: seq<string>, sep: char): string
    requires |pieces| >= 1
  {
    if |pieces| == 1 then pieces[0] else pieces[0] + [sep] + Join(pieces[1..], sep)
  }

  /** Array indexing as JavaScript does it: out of range gives `undefined`. */
  function At(pieces: seq<string>, i: nat): (r: Option<string>)
    ensures r.Some? <==> i < |pieces|
    ensures r.Some? ==> r.value == pieces[i]
  {
    if i < |pieces| then Some(pieces[i]) else None
  }

  /** `s.startsWith(prefix)`. */
  predicate StartsWith(s: string, prefix: string) {
    |prefix| <= |s| && s[..|prefix|] == prefix
  }

  /** `s.indexOf(c)`, with the length of `s` standing for "absent". */
  function Find(s: string, c: char): (i: nat)
    ensures i <= |s|
    ensures c !in s[..i]
    ensures i < |s| ==> s[i] == c
    decreases |s|
  {
    if |s| == 0 || s[0] == c then 0
    else
      var j := Find(s[1..], c);
      assert s[..1 + j] == [s[0]] + s[1..][..j];
      1 + j
  }

  /** `piece` is the text of `s` from index `start` up to the next `sep` or the end. */
  predicate PieceAt(s: string, start: nat, piece: string, sep: char) {
    && start <= |s|
    && StartsWith(s[start..], piece)
    && sep !in piece
    && (start + |piece| == |s| || s[start + |piece|] == sep)
  }

  /** Separator-free pieces that glue back to `s` are exactly `Split(s, sep)`. */
  lemma {:induction false} SplitUnique(s: string, sep: char, pieces: seq<string>)
    requires |pieces| >= 1
    requires forall i :: 0 <= i < |pieces| ==> sep !in pieces[i]
    requires Join(pieces, sep) == s
    ensures pieces == Split(s, sep)
    decreases |pieces|
  {
    if |pieces| == 1 {
      SplitWithoutSeparator(s, sep);
    } else {
      var tail := pieces[1..];
      assert forall i :: 0 <= i < |tail| ==> sep !in tail[i] by {
        forall i | 0 <= i < |tail| ensures sep !in tail[i] {
          assert tail[i] == pieces[i + 1];
        }
      }
      SplitUnique(Join(tail, sep), sep, tail);
      assert sep !in pieces[0];
      SplitAtFirst(pieces[0], Join(tail, sep), sep);
      assert pieces == [pieces[0]] + tail;
    }
  }

  /** A string without the separator is one piece, itself. */
  lemma {:induction false} SplitWithoutSeparator(s: string, sep: char)
    requires sep !in s
    ensures Split(s, sep) == [s]
    decreases |s|
  {
    if |s| > 0 {
      assert sep !in s[1..] by {
        forall k | 0 <= k < |s[1..]| ensures s[1..][k] != sep {
          assert s[1..][k] == s[k + 1];
        }
      }
      SplitWithoutSeparator(s[1..], sep);
      assert s == [s[0]] + s[1..];
    }
  }

  /** There is one more piece than there are separators in `s`. */
  lemma {:induction false} SplitCount(s: string, sep: char)
    ensures |Split(s, sep)| == multiset(s)[sep] + 1
    decreases |s|
  {
    if |s| > 0 {
      SplitCount(s[1..], sep);
      assert s == [s[0]] + s[1..];
      assert multiset(s) == multiset([s[0]]) + multiset(s[1..]);
    }
  }

  /** Cutting at the first separator: the part before it is the first piece and the rest
      is split on its own. */
  lemma {:induction false} SplitAtFirst(a: string, b: string, sep: char)
    requires sep !in a
    ensures Split(a + [sep] + b, sep) == [a] + Split(b, sep)
    decreases |a|
  {
    var s := a + [sep] + b;
    if |a| == 0 {
      assert s[1..] == b;
    } else {
      assert s[1..] == a[1..] + [sep] + b;
      assert sep !in a[1..] by {
        forall k | 0 <= k < |a[1..]| ensures a[1..][k] != sep {
          assert a[1..][k] == a[k + 1];
        }
      }
      SplitAtFirst(a[1..], b, sep);
      assert a == [a[0]] + a[1..];
    }
  }

  /** A piece is as long as the distance from its start to the next separator, so `PieceAt`
      admits one piece at most for each start. */
  lemma {:induction false} PieceLength(s: string, start: nat, piece: string, sep: char)
    requires PieceAt(s, start, piece, sep)
    ensures |piece| == Find(s[start..], sep)
  {
    var t := s[start..];
    var i := Find(t, sep);
    var j := |piece|;
    assert t[..j] == piece;
  }

  /** The text at a given start is unique. */
  lemma {:induction false} PieceAtUnique(s: string, start: nat, p: string, q: string, sep: char)
    requires PieceAt(s, start, p, sep) && PieceAt(s, start, q, sep)
    ensures p == q
  {
    PieceLength(s, start, p, sep);
    PieceLength(s, start, q, sep);
  }

  /** The first piece runs from the start of `s` up to the first separator or the end. */
  lemma {:induction false} FirstPiece(s: string, sep: char)
    ensures PieceAt(s, 0, Split(s, sep)[0], sep)
    ensures |Split(s, sep)[0]| == Find(s, sep)
    decreases |s|
  {
    if |s| > 0 && s[0] != sep {
      FirstPiece(s[1..], sep);
    }
    PieceLength(s, 0, Split(s, sep)[0], sep);
    assert s[0..] == s;
  }

  /** When there is a separator, the second piece runs from just after the first one up
      to the next separator or the end. */
  lemma {:induction false} SecondPiece(s: string, sep: char)
    requires sep in s
    ensures |Split(s, sep)| >= 2
    ensures PieceAt(s, Find(s, sep) + 1, Split(s, sep)[1], sep)
  {
    var head := Split(s, sep)[0];
    FirstPiece(s, sep);
    var k := |head|;
    var rest := s[k + 1..];
    assert s == head + [sep] + rest;
    SplitAtFirst(head, rest, sep);
    FirstPiece(rest, sep);
    assert rest[0..] == rest;
  }
}
