/** `str::replace` with the pattern `{}`: the diff prompt's markers are replaced, left to right and
    without overlap, by the staged diff. */
module Template {

  const Marker: string := "{}"

  /** `s` holds the marker starting at `i`. */
  predicate MarkerAt(s: string, i: nat)
  {
    i + 1 < |s| && s[i] == '{' && s[i + 1] == '}'
  }

  predicate HasMarker(s: string)
  {
    exists i :: 0 <= i < |s| && MarkerAt(s, i)
  }

  /** Every marker of `s` replaced by `d`, scanning from the left. */
  function Replace(s: string, d: string): (r: string)
    decreases |s|
  {
    if |s| < 2 then s
    else if MarkerAt(s, 0) then d + Replace(s[2..], d)
    else [s[0]] + Replace(s[1..], d)
  }

  /** The pieces of `s` between its markers, found from the left; there is always one more piece
      than there are markers. */
  function Pieces(s: string): (r: seq<string>)
    ensures |r| >= 1
    decreases |s|
  {
    if |s| < 2 then [s]
    else if MarkerAt(s, 0) then [[]] + Pieces(s[2..])
    else
      var p := Pieces(s[1..]);
      [[s[0]] + p[0]] + p[1..]
  }

  /** The pieces glued back together with `d` between each two. */
  function Join(ps: seq<string>, d: string): (r: string)
    requires |ps| >= 1
    decreases |ps|
  {
    if |ps| == 1 then ps[0] else ps[0] + d + Join(ps[1..], d)
  }

  /** Gluing a longer first piece. */
  lemma {:induction false} JoinFirst(c: char, ps: seq<string>, d: string)
    requires |ps| >= 1
    ensures Join([[c] + ps[0]] + ps[1..], d) == [c] + Join(ps, d)
  {
    var qs := [[c] + ps[0]] + ps[1..];
    if |ps| > 1 {
      assert qs[1..] == ps[1..];
    }
  }

  /** Replacing is splitting at the markers and joining with the replacement, as the standard
      library defines it. */
  lemma {:induction false} ReplaceIsJoin(s: string, d: string)
    ensures Replace(s, d) == Join(Pieces(s), d)
    decreases |s|
  {
    if |s| < 2 {
    } else if MarkerAt(s, 0) {
      ReplaceIsJoin(s[2..], d);
      var ps := [[]] + Pieces(s[2..]);
      assert ps[1..] == Pieces(s[2..]);
    } else {
      ReplaceIsJoin(s[1..], d);
      JoinFirst(s[0], Pieces(s[1..]), d);
    }
  }

  /** The first piece is where the template starts. */
  lemma {:induction false} FirstPieceIsPrefix(s: string)
    ensures |Pieces(s)[0]| <= |s| && Pieces(s)[0] == s[..|Pieces(s)[0]|]
    decreases |s|
  {
    if |s| >= 2 && !MarkerAt(s, 0) {
      FirstPieceIsPrefix(s[1..]);
      var p := Pieces(s[1..])[0];
      assert [s[0]] + p == s[..|p| + 1];
    }
  }

  /** Every marker is used as a separator: no piece holds one. */
  lemma {:induction false} PiecesHaveNoMarker(s: string)
    ensures forall k :: 0 <= k < |Pieces(s)| ==> !HasMarker(Pieces(s)[k])
    decreases |s|
  {
    if |s| < 2 {
    } else if MarkerAt(s, 0) {
      PiecesHaveNoMarker(s[2..]);
      var ps := Pieces(s);
      forall k | 0 < k < |ps|
        ensures !HasMarker(ps[k])
      {
        assert ps[k] == Pieces(s[2..])[k - 1];
      }
    } else {
      PiecesHaveNoMarker(s[1..]);
      FirstPieceIsPrefix(s[1..]);
      var p := Pieces(s[1..]);
      var first := [s[0]] + p[0];
      forall i: nat | MarkerAt(first, i)
        ensures false
      {
        if i > 0 {
          assert MarkerAt(p[0], i - 1);
        }
      }
      var ps := Pieces(s);
      forall k | 0 < k < |ps|
        ensures !HasMarker(ps[k])
      {
        assert ps[k] == p[k];
      }
    }
  }

  /** Putting the markers back between the pieces gives the template again. */
  lemma {:induction false} PiecesRoundTrip(s: string)
    ensures Join(Pieces(s), Marker) == s
    decreases |s|
  {
    ReplaceIsJoin(s, Marker);
    ReplaceMarkerByItself(s);
  }

  lemma {:induction false} ReplaceMarkerByItself(s: string)
    ensures Replace(s, Marker) == s
    decreases |s|
  {
    if |s| < 2 {
    } else if MarkerAt(s, 0) {
      ReplaceMarkerByItself(s[2..]);
      assert s == Marker + s[2..];
    } else {
      ReplaceMarkerByItself(s[1..]);
      assert s == [s[0]] + s[1..];
    }
  }

  /** A template without a marker is left as it is. */
  lemma {:induction false} NoMarkerUnchanged(s: string, d: string)
    requires !HasMarker(s)
    ensures Replace(s, d) == s
    decreases |s|
  {
    if |s| >= 2 {
      assert !MarkerAt(s, 0);
      assert !HasMarker(s[1..]) by {
        forall i: nat | MarkerAt(s[1..], i)
          ensures false
        {
          assert MarkerAt(s, i + 1);
        }
      }
      NoMarkerUnchanged(s[1..], d);
      assert s == [s[0]] + s[1..];
    }
  }

  /** A first character that does not open a marker is copied. */
  lemma ReplaceStep(s: string, d: string)
    requires s != [] && !MarkerAt(s, 0)
    ensures Replace(s, d) == [s[0]] + Replace(s[1..], d)
  {
    if |s| == 1 {
      assert s == [s[0]];
    }
  }

  /** The step of ReplaceAppend past a leading marker. */
  lemma AppendPastMarker(a: string, b: string, d: string)
    requires MarkerAt(a, 0) && Replace(a[2..] + b, d) == Replace(a[2..], d) + Replace(b, d)
    ensures Replace(a + b, d) == Replace(a, d) + Replace(b, d)
  {
    var ab := a + b;
    assert MarkerAt(ab, 0);
    assert ab[2..] == a[2..] + b;
    Regroup(d, Replace(a[2..], d), Replace(b, d));
  }

  /** Gluing `b` after `a` opens no marker at the start when `a` does not and the seam does not. */
  lemma NoMarkerAtJoin(a: string, b: string)
    requires a != [] && !MarkerAt(a, 0)
    requires !(a[|a| - 1] == '{' && b != [] && b[0] == '}')
    ensures !MarkerAt(a + b, 0)
  {
    if |a| >= 2 {
      assert (a + b)[1] == a[1];
    } else if b != [] {
      assert (a + b)[1] == b[0];
    }
  }

  /** Past a first character of `a` that does not open a marker, even with `b` glued after. */
  lemma ReplaceStepJoin(a: string, b: string, d: string)
    requires a != [] && !MarkerAt(a, 0)
    requires !(a[|a| - 1] == '{' && b != [] && b[0] == '}')
    ensures Replace(a + b, d) == [a[0]] + Replace(a[1..] + b, d)
  {
    var ab := a + b;
    NoMarkerAtJoin(a, b);
    assert ab[0] == a[0];
    assert ab[1..] == a[1..] + b;
    ReplaceStep(ab, d);
  }

  /** The step of ReplaceAppend past a leading character that does not open a marker. */
  lemma AppendPastChar(a: string, b: string, d: string)
    requires a != [] && !MarkerAt(a, 0)
    requires !(a[|a| - 1] == '{' && b != [] && b[0] == '}')
    requires Replace(a[1..] + b, d) == Replace(a[1..], d) + Replace(b, d)
    ensures Replace(a + b, d) == Replace(a, d) + Replace(b, d)
  {
    ReplaceStepJoin(a, b, d);
    ReplaceStep(a, d);
    Regroup([a[0]], Replace(a[1..], d), Replace(b, d));
  }

  lemma Regroup(c: string, x: string, y: string)
    ensures c + (x + y) == (c + x) + y
  {
  }

  /** Replacing distributes over a concatenation that does not cut a marker in two. */
  lemma {:induction false} ReplaceAppend(a: string, b: string, d: string)
    requires !(a != [] && a[|a| - 1] == '{' && b != [] && b[0] == '}')
    ensures Replace(a + b, d) == Replace(a, d) + Replace(b, d)
    decreases |a|
  {
    if a == [] {
      assert a + b == b;
    } else if MarkerAt(a, 0) {
      ReplaceAppend(a[2..], b, d);
      AppendPastMarker(a, b, d);
    } else {
      ReplaceAppend(a[1..], b, d);
      AppendPastChar(a, b, d);
    }
  }

  /** A template with exactly one marker becomes the text before it, the diff, and the text
      after it. */
  lemma {:induction false} SingleMarker(pre: string, suf: string, d: string)
    requires !HasMarker(pre) && !HasMarker(suf)
    ensures Replace(pre + Marker + suf, d) == pre + d + suf
  {
    assert pre + Marker + suf == pre + (Marker + suf);
    ReplaceAppend(pre, Marker + suf, d);
    assert MarkerAt(Marker + suf, 0) && (Marker + suf)[2..] == suf;
    NoMarkerUnchanged(pre, d);
    NoMarkerUnchanged(suf, d);
  }
}
