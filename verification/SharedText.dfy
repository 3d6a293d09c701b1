/** When two lists of fields joined on a separator give the same text.

    The fields come as some that never hold the separator (`pre`, `mid`, `post`) and some that may: a run of ids
    between `pre` and `mid`, and one more, the key, between `mid` and `post`. */
module SharedText {
  import opened Text

  // ------------------------------------------------------------ pieces

  lemma {:induction false} JoinConcat(a: seq<string>, b: seq<string>, sep: char)
    requires |a| > 0 && |b| > 0
    ensures Join(a + b, sep) == Join(a, sep) + [sep] + Join(b, sep)
    decreases |b|
  {
    var n := |b| - 1;
    assert (a + b)[..|a + b| - 1] == a + b[..n] && (a + b)[|a + b| - 1] == b[n];
    if n == 0 {
      assert a + b[..0] == a;
    } else {
      JoinConcat(a, b[..n], sep);
    }
  }

  /** A field that is itself a join may be replaced by its parts. */
  lemma JoinNested(a: seq<string>, x: seq<string>, b: seq<string>, sep: char)
    requires |x| > 0
    ensures Join(a + [Join(x, sep)] + b, sep) == Join(a + x + b, sep)
  {
    var y := [Join(x, sep)];
    assert Join(y, sep) == Join(x, sep);
    if a == [] {
      assert a + y == y && a + x == x;
    } else {
      JoinConcat(a, y, sep);
      JoinConcat(a, x, sep);
    }
    if b == [] {
      assert a + y + b == a + y && a + x + b == a + x;
    } else {
      JoinConcat(a + y, b, sep);
      JoinConcat(a + x, b, sep);
    }
  }

  lemma {:induction false} SplitFree(s: string, sep: char)
    ensures AllFree(Split(s, sep), sep)
  {
    if s != "" { SplitFree(s[..|s| - 1], sep); }
  }

  /** The pieces between separators of all the fields. */
  function Pieces(fields: seq<string>, sep: char): (r: seq<string>)
    ensures |r| >= |fields|
  {
    if fields == [] then [] else Pieces(fields[..|fields| - 1], sep) + Split(fields[|fields| - 1], sep)
  }

  lemma {:induction false} PiecesAppend(a: seq<string>, b: seq<string>, sep: char)
    ensures Pieces(a + b, sep) == Pieces(a, sep) + Pieces(b, sep)
    decreases |b|
  {
    if b == [] {
      assert a + b == a;
    } else {
      var n := |b| - 1;
      assert (a + b)[..|a + b| - 1] == a + b[..n] && (a + b)[|a + b| - 1] == b[n];
      PiecesAppend(a, b[..n], sep);
    }
  }

  lemma {:induction false} PiecesAreFree(fields: seq<string>, sep: char)
    ensures AllFree(Pieces(fields, sep), sep)
  {
    if fields != [] {
      PiecesAreFree(fields[..|fields| - 1], sep);
      SplitFree(fields[|fields| - 1], sep);
    }
  }

  /** Fields without the separator are their own pieces, and only they are as many. */
  lemma {:induction false} FreePieces(fields: seq<string>, sep: char)
    ensures AllFree(fields, sep) ==> Pieces(fields, sep) == fields
    ensures |Pieces(fields, sep)| == |fields| ==> AllFree(fields, sep)
  {
    if fields != [] {
      var n := |fields| - 1;
      FreePieces(fields[..n], sep);
      SplitOneIff(fields[n], sep);
      assert fields == fields[..n] + [fields[n]];
    }
  }

  lemma SplitOneIff(field: string, sep: char)
    ensures Free(field, sep) <==> |Split(field, sep)| == 1
    ensures Free(field, sep) ==> Split(field, sep) == [field]
  {
    SplitCount(field, sep);
    FreeIff(field, sep);
    if Free(field, sep) { SplitOne(field, sep); }
  }

  lemma {:induction false} JoinOfPieces(fields: seq<string>, sep: char)
    requires |fields| > 0
    ensures |Pieces(fields, sep)| > 0 && Join(Pieces(fields, sep), sep) == Join(fields, sep)
  {
    var n := |fields| - 1;
    JoinUndoesSplit(fields[n], sep);
    if n == 0 {
      assert Pieces(fields, sep) == Split(fields[0], sep);
    } else {
      JoinOfPieces(fields[..n], sep);
      JoinConcat(Pieces(fields[..n], sep), Split(fields[n], sep), sep);
    }
  }

  /** Splitting a joined text gives the pieces of its fields. */
  lemma SplitIsPieces(fields: seq<string>, sep: char)
    requires |fields| > 0
    ensures Split(Join(fields, sep), sep) == Pieces(fields, sep)
  {
    JoinOfPieces(fields, sep);
    PiecesAreFree(fields, sep);
    SplitUndoesJoin(Pieces(fields, sep), sep);
  }

  // ------------------------------------------------------------ the shape of a signed text

  datatype Fields = Fields(pre: seq<string>, ids: seq<string>, mid: seq<string>, key: string, post: seq<string>)

  function List(f: Fields): seq<string> { f.pre + f.ids + f.mid + [f.key] + f.post }

  predicate Plain(f: Fields, sep: char) { AllFree(f.pre, sep) && AllFree(f.mid, sep) && AllFree(f.post, sep) }

  predicate SameShape(f: Fields, g: Fields) {
    |f.pre| == |g.pre| && |f.ids| == |g.ids| && |f.mid| == |g.mid| && |f.post| == |g.post|
  }

  /** What stands between the ids and `post`, piece by piece. */
  function Tail(f: Fields, sep: char): seq<string> { f.mid + Split(f.key, sep) }

  /** The middle fields can be read j pieces further on, out of the key. */
  predicate Shift(f: Fields, mid: seq<string>, j: nat, sep: char) {
    1 <= j < |Split(f.key, sep)| && mid == Tail(f, sep)[j..j + |f.mid|]
  }

  lemma Assoc(a: seq<string>, b: seq<string>, c: seq<string>)
    ensures a + b + c == a + (b + c)
  {
  }

  lemma ShiftAt(f: Fields, mid: seq<string>, j: nat, k: nat, sep: char)
    requires Shift(f, mid, j, sep) && k < |f.mid|
    ensures k < |mid| == |f.mid| && mid[k] == Tail(f, sep)[j + k]
  {
  }

  lemma PiecesOf(f: Fields, sep: char)
    requires Plain(f, sep)
    ensures Pieces(List(f), sep) == f.pre + (Pieces(f.ids, sep) + Tail(f, sep)) + f.post
  {
    PiecesAppend(f.pre + f.ids + f.mid + [f.key], f.post, sep);
    PiecesAppend(f.pre + f.ids + f.mid, [f.key], sep);
    PiecesAppend(f.pre + f.ids, f.mid, sep);
    PiecesAppend(f.pre, f.ids, sep);
    FreePieces(f.pre, sep);
    FreePieces(f.mid, sep);
    FreePieces(f.post, sep);
    OnePiece(f.key, sep);
    Assoc(f.pre + Pieces(f.ids, sep), f.mid, Split(f.key, sep));
    Assoc(f.pre, Pieces(f.ids, sep), Tail(f, sep));
  }

  lemma OnePiece(key: string, sep: char)
    ensures Pieces([key], sep) == Split(key, sep)
  {
    assert [key][..0] == [] && Pieces([], sep) + Split(key, sep) == Split(key, sep);
  }

  lemma SameEnds(a: seq<string>, x: seq<string>, b: seq<string>, a': seq<string>, x': seq<string>, b': seq<string>)
    requires a + x + b == a' + x' + b' && |a| == |a'| && |b| == |b'|
    ensures a == a' && x == x' && b == b'
  {
    var t := a + x + b;
    assert |x| == |x'|;
    assert t[..|a|] == a && t[|a|..|a| + |x|] == x && t[|a| + |x|..] == b;
    assert t[..|a|] == a' && t[|a|..|a| + |x|] == x' && t[|a| + |x|..] == b';
  }

  /** Fields whose ids hold no separator share their text only with themselves, or by a shift into the key. */
  lemma SameTextIs(f: Fields, g: Fields, sep: char)
    requires Plain(f, sep) && Plain(g, sep) && SameShape(f, g) && AllFree(f.ids, sep)
    requires Join(List(f), sep) == Join(List(g), sep)
    ensures f == g || exists j: nat :: Shift(f, g.mid, j, sep)
  {
    SplitIsPieces(List(f), sep);
    SplitIsPieces(List(g), sep);
    PiecesOf(f, sep);
    PiecesOf(g, sep);
    FreePieces(f.ids, sep);
    FreePieces(g.ids, sep);
    SameEnds(f.pre, f.ids + Tail(f, sep), f.post, g.pre, Pieces(g.ids, sep) + Tail(g, sep), g.post);
    ShiftOrSame(f, g, Pieces(g.ids, sep), sep);
  }

  lemma ShiftOrSame(f: Fields, g: Fields, ids: seq<string>, sep: char)
    requires f.pre == g.pre && f.post == g.post && |f.mid| == |g.mid|
    requires |ids| >= |f.ids| && (|ids| == |f.ids| ==> ids == g.ids)
    requires f.ids + Tail(f, sep) == ids + Tail(g, sep)
    ensures f == g || exists j: nat :: Shift(f, g.mid, j, sep)
  {
    var j, t := |ids| - |f.ids|, ids + Tail(g, sep);
    assert t[|ids|..] == Tail(g, sep) && t[|f.ids|..] == Tail(f, sep);
    assert Tail(f, sep)[j..] == Tail(g, sep);
    assert Tail(g, sep)[..|g.mid|] == g.mid;
    if j == 0 {
      assert t[..|ids|] == ids && t[..|ids|] == f.ids;
      assert Tail(f, sep)[|f.mid|..] == Split(f.key, sep) && Tail(g, sep)[|f.mid|..] == Split(g.key, sep);
      JoinUndoesSplit(f.key, sep);
      JoinUndoesSplit(g.key, sep);
    } else {
      assert g.mid == Tail(f, sep)[j..j + |f.mid|];
      assert Shift(f, g.mid, j, sep);
    }
  }

  /** The other fields that a shift reads. */
  function Shifted(f: Fields, j: nat, sep: char): Fields
    requires |f.ids| > 0 && 1 <= j < |Split(f.key, sep)|
  {
    var n, t, m := |f.ids| - 1, Tail(f, sep), |f.mid|;
    f.(ids := f.ids[n := Join([f.ids[n]] + t[..j], sep)], mid := t[j..j + m], key := Join(t[j + m..], sep))
  }

  lemma ShiftSharesText(f: Fields, j: nat, sep: char)
    requires |f.ids| > 0 && 1 <= j < |Split(f.key, sep)|
    ensures Join(List(Shifted(f, j, sep)), sep) == Join(List(f), sep) && Shifted(f, j, sep).ids != f.ids
  {
    var n, t, m, g := |f.ids| - 1, Tail(f, sep), |f.mid|, Shifted(f, j, sep);
    var a, x := f.pre + f.ids[..n], [f.ids[n]];
    assert t == t[..j] + t[j..j + m] + t[j + m..];
    assert List(f) == a + x + f.mid + [f.key] + f.post by {
      assert f.ids == f.ids[..n] + x;
      Assoc(f.pre, f.ids[..n], x);
    }
    assert List(g) == a + [Join(x + t[..j], sep)] + t[j..j + m] + [g.key] + f.post by {
      assert g.ids == f.ids[..n] + [Join(x + t[..j], sep)];
      Assoc(f.pre, f.ids[..n], [Join(x + t[..j], sep)]);
    }
    JoinUndoesSplit(f.key, sep);
    Resplit(a, x, f.mid, Split(f.key, sep), t[..j], t[j..j + m], t[j + m..], f.post, sep);
    JoinConcat(x, t[..j], sep);
    assert Join(x, sep) == f.ids[n];
  }

  /** One list of pieces, taken together in two ways. */
  lemma Resplit(a: seq<string>, x: seq<string>, mid: seq<string>, key: seq<string>,
                t: seq<string>, u: seq<string>, v: seq<string>, b: seq<string>, sep: char)
    requires |x| > 0 && |key| > 0 && |v| > 0 && mid + key == t + u + v
    ensures Join(a + x + mid + [Join(key, sep)] + b, sep) == Join(a + [Join(x + t, sep)] + u + [Join(v, sep)] + b, sep)
  {
    JoinNested(a + x + mid, key, b, sep);
    assert a + x + mid + key == a + (x + t) + u + v by {
      Assoc(a + x, mid, key);
      Assoc(a + x, t + u, v);
      Assoc(a + x, t, u);
      Assoc(a, x, t);
    }
    JoinNested(a + (x + t) + u, v, b, sep);
    Regroup(a, x + t, u, [Join(v, sep)], b);
    Regroup(a, [Join(x + t, sep)], u, [Join(v, sep)], b);
    JoinNested(a, x + t, u + [Join(v, sep)] + b, sep);
  }

  lemma Regroup(a: seq<string>, b: seq<string>, c: seq<string>, d: seq<string>, e: seq<string>)
    ensures a + b + c + d + e == a + b + (c + d + e)
  {
  }

  /** A separator in one of several ids can be read as the border with a neighbour. */
  lemma IdsShareText(f: Fields, sep: char) returns (ids: seq<string>)
    requires |f.ids| > 1 && !AllFree(f.ids, sep)
    ensures |ids| == |f.ids| && ids != f.ids && Join(List(f.(ids := ids)), sep) == Join(List(f), sep)
  {
    var i :| 0 <= i < |f.ids| && !Free(f.ids[i], sep);
    var c :| 0 <= c < |f.ids[i]| && f.ids[i][c] == sep;
    var x, y := f.ids[i][..c], f.ids[i][c + 1..];
    assert f.ids[i] == x + [sep] + y;
    if i + 1 < |f.ids| {
      ids := f.ids[..i] + [x, y + [sep] + f.ids[i + 1]] + f.ids[i + 2..];
      assert |ids[i]| < |f.ids[i]|;
      assert f.ids == f.ids[..i] + [x + [sep] + y, f.ids[i + 1]] + f.ids[i + 2..];
      BorderInIds(f, f.ids[..i], x, y, f.ids[i + 1], f.ids[i + 2..], sep);
    } else {
      ids := f.ids[..i - 1] + [f.ids[i - 1] + [sep] + x, y] + f.ids[i + 1..];
      assert |ids[i]| < |f.ids[i]|;
      assert f.ids == f.ids[..i - 1] + [f.ids[i - 1], x + [sep] + y] + f.ids[i + 1..];
      BorderInIds(f, f.ids[..i - 1], f.ids[i - 1], x, y, f.ids[i + 1..], sep);
    }
  }

  lemma BorderInIds(f: Fields, a: seq<string>, x: string, y: string, z: string, b: seq<string>, sep: char)
    ensures Join(List(f.(ids := a + [x + [sep] + y, z] + b)), sep) ==
            Join(List(f.(ids := a + [x, y + [sep] + z] + b)), sep)
  {
    BorderMoves(f.pre + a, x, y, z, b + f.mid + [f.key] + f.post, sep);
    IdsInside(f, a, [x + [sep] + y, z], b);
    IdsInside(f, a, [x, y + [sep] + z], b);
  }

  lemma IdsInside(f: Fields, a: seq<string>, x: seq<string>, b: seq<string>)
    ensures List(f.(ids := a + x + b)) == f.pre + a + x + (b + f.mid + [f.key] + f.post)
  {
    assert f.pre + (a + x + b) == f.pre + a + x + b;
    Regroup(f.pre + a + x, b, f.mid, [f.key], f.post);
    Regroup(f.pre + a, x, b, f.mid + [f.key], f.post);
    assert f.pre + a + x + b + f.mid + [f.key] + f.post == f.pre + a + x + (b + f.mid + [f.key] + f.post);
  }

  lemma BorderMoves(a: seq<string>, x: string, y: string, z: string, b: seq<string>, sep: char)
    ensures Join(a + [x + [sep] + y, z] + b, sep) == Join(a + [x, y + [sep] + z] + b, sep)
  {
    JoinTwo(x, y, sep);
    JoinTwo(y, z, sep);
    JoinNested(a, [x, y], [z] + b, sep);
    JoinNested(a + [x], [y, z], b, sep);
    assert a + [x + [sep] + y, z] + b == a + [x + [sep] + y] + ([z] + b);
    assert a + [x, y + [sep] + z] + b == a + [x] + [y + [sep] + z] + b;
    assert a + [x, y] + ([z] + b) == a + [x] + [y, z] + b;
  }

  lemma JoinTwo(x: string, y: string, sep: char)
    ensures Join([x, y], sep) == x + [sep] + y
  {
    assert [x, y][..1] == [x];
  }
}
