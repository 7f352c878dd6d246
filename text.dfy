/** Character-level helpers: Unicode whitespace as Rust's `trim` and the regex class `\s` see it,
    trimming, and line boundaries. */
module Text {

  /** The Unicode White_Space property, which `char::is_whitespace`, `str::trim` and `\s` all use. */
  predicate IsSpace(c: char)
  {
    ('\t' <= c <= '\r') || c == ' ' || c == '\U{85}' || c == '\U{A0}' || c == '\U{1680}'
    || ('\U{2000}' <= c <= '\U{200A}') || c == '\U{2028}' || c == '\U{2029}'
    || c == '\U{202F}' || c == '\U{205F}' || c == '\U{3000}'
  }

  predicate IsBlank(s: string)
  {
    forall i :: 0 <= i < |s| ==> IsSpace(s[i])
  }

  /** Every character of `s[lo..hi]` is whitespace. */
  predicate SpacesBetween(s: string, lo: nat, hi: nat)
    requires lo <= hi <= |s|
  {
    forall k :: lo <= k < hi ==> IsSpace(s[k])
  }

  /** `str::trim_start`: drops the leading whitespace and nothing else (TrimStartDrops says
      what it drops). */
  function TrimStart(s: string): (r: string)
    ensures |r| <= |s| && (r == [] <==> IsBlank(s))
    ensures r != [] ==> !IsSpace(r[0])
  {
    if s != [] && IsSpace(s[0]) then TrimStart(s[1..]) else s
  }

  /** What `trim_start` drops is a run of whitespace, and what it keeps is the rest of the text. */
  lemma {:induction false} TrimStartDrops(s: string)
    ensures TrimStart(s) == s[|s| - |TrimStart(s)|..]
    ensures SpacesBetween(s, 0, |s| - |TrimStart(s)|)
  {
    if s != [] && IsSpace(s[0]) {
      TrimStartDrops(s[1..]);
    }
  }

  /** `str::trim_end`: drops the trailing whitespace and nothing else (TrimEndDrops says what it
      drops). */
  function TrimEnd(s: string): (r: string)
    ensures |r| <= |s| && (r == [] <==> IsBlank(s))
    ensures r != [] ==> !IsSpace(r[|r| - 1])
  {
    if s != [] && IsSpace(s[|s| - 1]) then TrimEnd(s[..|s| - 1]) else s
  }

  /** What `trim_end` drops is a run of whitespace, and what it keeps is the start of the text. */
  lemma {:induction false} TrimEndDrops(s: string)
    ensures TrimEnd(s) == s[..|TrimEnd(s)|]
    ensures SpacesBetween(s, |TrimEnd(s)|, |s|)
  {
    if s != [] && IsSpace(s[|s| - 1]) {
      TrimEndDrops(s[..|s| - 1]);
    }
  }

  /** `str::trim`: empty exactly when the text is blank, and otherwise starting and ending with
      a non-whitespace character (TrimBounds says where it lies in the text). */
  function Trim(s: string): (r: string)
    ensures |r| <= |s|
    ensures r == [] <==> IsBlank(s)
    ensures r != [] ==> !IsSpace(r[0]) && !IsSpace(r[|r| - 1])
  {
    var front := TrimStart(s);
    TrimEndDrops(front);
    TrimEnd(front)
  }

  /** A slice of a slice is a slice of the text. */
  lemma SliceOfSlice(t: string, i: nat, j: nat, a: nat, b: nat)
    requires i <= j <= |t| && a <= b <= j - i
    ensures t[i..j][a..b] == t[i + a..i + b]
  {
    forall k | 0 <= k < b - a
      ensures t[i..j][a..b][k] == t[i + a + k]
    {
      assert t[i..j][a..b][k] == t[i..j][a + k];
    }
  }

  /** Whitespace inside a slice is whitespace of the text. */
  lemma SpacesInSlice(t: string, i: nat, j: nat, lo: nat, hi: nat)
    requires i <= j <= |t| && lo <= hi <= j - i && SpacesBetween(t[i..j], lo, hi)
    ensures SpacesBetween(t, i + lo, i + hi)
  {
    forall k | i + lo <= k < i + hi
      ensures IsSpace(t[k])
    {
      assert t[k] == t[i..j][k - i];
    }
  }

  /** The trimmed text is the slice of the text between a blank prefix and a blank suffix. */
  lemma {:induction false} TrimBounds(s: string) returns (a: nat, b: nat)
    ensures a <= b <= |s| && Trim(s) == s[a..b]
    ensures SpacesBetween(s, 0, a) && SpacesBetween(s, b, |s|)
  {
    var front := TrimStart(s);
    TrimStartDrops(s);
    TrimEndDrops(front);
    a := |s| - |front|;
    PrefixOfSuffix(s, a, TrimEnd(front));
    b := a + |TrimEnd(front)|;
  }

  /** A prefix `r` of the suffix `s[a..]`, followed there only by whitespace, is the slice
      `s[a..a + |r|]`, followed in `s` only by whitespace. */
  lemma PrefixOfSuffix(s: string, a: nat, r: string)
    requires a <= |s| && |r| <= |s| - a && r == s[a..][..|r|] && SpacesBetween(s[a..], |r|, |s| - a)
    ensures r == s[a..a + |r|] && SpacesBetween(s, a + |r|, |s|)
  {
    assert s[a..] == s[a..|s|];
    SliceOfSlice(s, a, |s|, 0, |r|);
    SpacesInSlice(s, a, |s|, |r|, |s| - a);
  }

  /** Trimming is determined by where the first and the last non-whitespace characters are. */
  lemma {:induction false} TrimUnique(s: string, i: nat, j: nat)
    requires i < j <= |s|
    requires SpacesBetween(s, 0, i) && SpacesBetween(s, j, |s|)
    requires !IsSpace(s[i]) && !IsSpace(s[j - 1])
    ensures Trim(s) == s[i..j]
  {
    var a, b := TrimBounds(s);
    assert !IsBlank(s) by {
      assert !IsSpace(s[i]);
    }
    var r := Trim(s);
    assert s[a] == r[0] && s[b - 1] == r[|r| - 1];
    assert a == i && b == j;
  }

  /** A text without surrounding whitespace is its own trim. */
  lemma TrimmedAlready(s: string)
    requires s != [] && !IsSpace(s[0]) && !IsSpace(s[|s| - 1])
    ensures Trim(s) == s && !IsBlank(s)
  {
    TrimUnique(s, 0, |s|);
    assert s[0..|s|] == s;
  }

  /** Trimming twice is trimming once. */
  lemma {:induction false} TrimIdempotent(s: string)
    ensures Trim(Trim(s)) == Trim(s)
  {
    var r := Trim(s);
    if r != [] {
      TrimUnique(r, 0, |r|);
    }
  }

  /** No character of `t[a..b]` is a line feed. */
  predicate NoNewline(t: string, a: nat, b: nat)
    requires a <= b <= |t|
  {
    forall k :: a <= k < b ==> t[k] != '\n'
  }

  /** The index of the line feed that ends the line holding position `i`, or the text's length. */
  function LineEnd(t: string, i: nat): (e: nat)
    requires i <= |t|
    ensures i <= e <= |t| && NoNewline(t, i, e)
    ensures e < |t| ==> t[e] == '\n'
    decreases |t| - i
  {
    if i == |t| || t[i] == '\n' then i else LineEnd(t, i + 1)
  }

  /** The line end is the first line feed from `i` on. */
  lemma {:induction false} LineEndAt(t: string, i: nat, j: nat)
    requires i <= j <= |t| && NoNewline(t, i, j) && (j < |t| ==> t[j] == '\n')
    ensures LineEnd(t, i) == j
    decreases j - i
  {
    if i < j {
      LineEndAt(t, i + 1, j);
    }
  }

  /** The text up to, not including, its first line feed. */
  function FirstLine(s: string): (r: string)
    ensures |r| <= |s| && r == s[..|r|]
    ensures forall k :: 0 <= k < |r| ==> r[k] != '\n'
    ensures |r| < |s| ==> s[|r|] == '\n'
  {
    s[..LineEnd(s, 0)]
  }

  /** Line ends are the same whether a suffix of the text or the whole text is scanned. */
  lemma {:induction false} LineEndShift(t: string, q: nat, i: nat)
    requires q + i <= |t|
    ensures LineEnd(t[q..], i) == LineEnd(t, q + i) - q
    decreases |t| - q - i
  {
    if q + i < |t| && t[q + i] != '\n' {
      LineEndShift(t, q, i + 1);
    }
  }

  /** The first line of the text from `q` on runs to the line end of position `q`. */
  lemma {:induction false} FirstLineFrom(t: string, q: nat)
    requires q <= |t|
    ensures FirstLine(t[q..]) == t[q..LineEnd(t, q)]
  {
    LineEndShift(t, q, 0);
  }
}
