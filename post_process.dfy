/** The post-processing step of `generate_commit_message`: the reply of the model is searched with
    the multi-line regular expression  ^\s*(?:`\s*(.+?)\s*`|(.+?))\s*$  and the first capture group
    that took part in the match is the commit message.

    The matcher below is that one pattern, written out as the backtracking search a leftmost-first
    engine performs: a greedy `\s*` tries its longest run first and gives characters back one at a
    time, a lazy `.+?` tries its shortest extent first and grows, the backtick alternative is tried
    before the plain one, and the search starts at the first line start where a match exists. The
    dot never matches a line feed; `^` and `$` match at line boundaries; `\s` is Unicode whitespace
    and may cross line feeds. */
module PostProcess {
  import opened Errors
  import opened Text

  /** Multi-line `$`: the end of the text, or just before a line feed. */
  predicate AtLineEnd(t: string, i: nat)
    requires i <= |t|
  {
    i == |t| || t[i] == '\n'
  }

  /** Greedy `\s*` from `i`: where the whitespace run starting at `i` ends. */
  function SpaceRunEnd(t: string, i: nat): (j: nat)
    requires i <= |t|
    ensures i <= j <= |t| && SpacesBetween(t, i, j)
    ensures j < |t| ==> !IsSpace(t[j])
    decreases |t| - i
  {
    if i < |t| && IsSpace(t[i]) then SpaceRunEnd(t, i + 1) else i
  }

  /** `\s*$` matches from `i`. */
  predicate TrailOk(t: string, i: nat)
    requires i <= |t|
    decreases |t| - i
  {
    AtLineEnd(t, i) || (IsSpace(t[i]) && TrailOk(t, i + 1))
  }

  /** `\s*` followed by a backtick and `\s*$` matches from `i`. Only the longest whitespace run can
      reach the backtick, since a backtick is not whitespace. */
  predicate ClosingOk(t: string, i: nat)
    requires i <= |t|
  {
    var j := SpaceRunEnd(t, i);
    j < |t| && t[j] == '`' && TrailOk(t, j + 1)
  }

  /** What has to follow a lazy `.+?`: the rest of the plain alternative, or of the backtick one. */
  datatype Tail = Plain | Quoted

  predicate TailOk(t: string, i: nat, tail: Tail)
    requires i <= |t|
  {
    match tail
    case Plain => TrailOk(t, i)
    case Quoted => ClosingOk(t, i)
  }

  /** Lazy `.+?` that has already taken `t[s..e-1]`: the least end `e' >= e` such that the dot
      matched every character before it and the tail matches from `e'`. */
  function LazyEnd(t: string, e: nat, tail: Tail): (r: Option<nat>)
    requires 0 < e <= |t|
    ensures r.Some? ==> e <= r.value <= |t| && NoNewline(t, e - 1, r.value) && TailOk(t, r.value, tail)
    decreases |t| - e
  {
    if t[e - 1] == '\n' then None
    else if TailOk(t, e, tail) then Some(e)
    else if e < |t| then LazyEnd(t, e + 1, tail)
    else None
  }

  /** A successful match: which group captured, and the captured span `t[start..end]`. */
  datatype Capture = Capture(group: nat, start: nat, end: nat)

  predicate ValidCapture(t: string, c: Capture)
  {
    c.start < c.end <= |t| && NoNewline(t, c.start, c.end) && (c.group == 1 || c.group == 2)
  }

  /** The backtick alternative after its opening backtick: the `\s*` has taken `t[lo..u]` and gives
      back one character at a time down to `lo`; for each `u` the lazy group 1 starts at `u`. */
  function QuotedFrom(t: string, lo: nat, u: nat): (r: Option<Capture>)
    requires 0 < lo <= u <= |t|
    ensures r.Some? ==> ValidCapture(t, r.value) && r.value.group == 1 && lo <= r.value.start
    decreases u
  {
    var e := if u < |t| then LazyEnd(t, u + 1, Quoted) else None;
    if e.Some? then Some(Capture(1, u, e.value))
    else if lo < u then QuotedFrom(t, lo, u - 1)
    else None
  }

  /** The alternation at position `s`: the backtick form first, then the plain form (group 2). */
  function TryAlternatives(t: string, s: nat): (r: Option<Capture>)
    requires s <= |t|
    ensures r.Some? ==> ValidCapture(t, r.value) && s <= r.value.start
  {
    var quoted := if s < |t| && t[s] == '`' then QuotedFrom(t, s + 1, SpaceRunEnd(t, s + 1)) else None;
    if quoted.Some? then quoted
    else if s < |t| then
      match LazyEnd(t, s + 1, Plain)
      case Some(e) => Some(Capture(2, s, e))
      case None => None
    else None
  }

  /** `^\s*` at line start `p`: the leading `\s*` has taken `t[p..s]` and gives characters back. */
  function MatchAt(t: string, p: nat, s: nat): (r: Option<Capture>)
    requires p <= s <= |t|
    ensures r.Some? ==> ValidCapture(t, r.value) && p <= r.value.start
    decreases s
  {
    var c := TryAlternatives(t, s);
    if c.Some? then c
    else if p < s then MatchAt(t, p, s - 1)
    else None
  }

  /** The leftmost match: try each line start in turn, from `p` on. */
  function Search(t: string, p: nat): (r: Option<Capture>)
    requires p <= |t|
    ensures r.Some? ==> ValidCapture(t, r.value)
    decreases |t| - p
  {
    var c := MatchAt(t, p, SpaceRunEnd(t, p));
    if c.Some? then c
    else
      var e := LineEnd(t, p);
      if e < |t| then Search(t, e + 1) else None
  }

  /** The post-processing exactly as the source writes it: the captured group, or the error when
      the expression does not match. A success is a non-empty piece of a single line. */
  function SanitizeAsWritten(t: string): (r: Result<string>)
    ensures r.Ok? ==> r.value != [] && forall k :: 0 <= k < |r.value| ==> r.value[k] != '\n'
    ensures r.Ok? ==> exists i, j :: 0 <= i < j <= |t| && r.value == t[i..j]
    ensures r.Err? ==> r.error == PostProcessingFailed
  {
    match Search(t, 0)
    case Some(c) => Ok(t[c.start..c.end])
    case None => Err(PostProcessingFailed)
  }

  /** The post-processing as intended: a capture with no visible character is refused like a failed
      match, so that a success is always a usable single-line message. */
  function Sanitize(t: string): (r: Result<string>)
    ensures r.Ok? ==> !IsBlank(r.value) && forall k :: 0 <= k < |r.value| ==> r.value[k] != '\n'
    ensures r.Ok? ==> r == SanitizeAsWritten(t)
    ensures r.Err? ==> r.error == PostProcessingFailed
    ensures SanitizeAsWritten(t).Ok? && !IsBlank(SanitizeAsWritten(t).value) ==> r.Ok?
  {
    match SanitizeAsWritten(t)
    case Ok(s) => if IsBlank(s) then Err(PostProcessingFailed) else Ok(s)
    case Err(e) => Err(e)
  }

  // ---------------------------------------------------------------------------------------------
  // Facts about the pieces of the matcher

  /** A lazy `.+?` succeeds no later than any end the tail accepts on the same line. */
  lemma {:induction false} LazyEndFinds(t: string, e: nat, tail: Tail, k: nat)
    requires 0 < e <= k <= |t| && NoNewline(t, e - 1, k) && TailOk(t, k, tail)
    ensures LazyEnd(t, e, tail).Some? && LazyEnd(t, e, tail).value <= k
    decreases k - e
  {
    if t[e - 1] != '\n' && !TailOk(t, e, tail) {
      LazyEndFinds(t, e + 1, tail, k);
    }
  }

  /** `\s*$` matches where only whitespace is left before the end of the line. */
  lemma {:induction false} TrailOkWhen(t: string, i: nat, l: nat)
    requires i <= l <= |t| && SpacesBetween(t, i, l) && AtLineEnd(t, l)
    ensures TrailOk(t, i)
    decreases l - i
  {
    if i < l {
      TrailOkWhen(t, i + 1, l);
    }
  }

  /** Where `\s*$` matches, every character up to the end of the line is whitespace. */
  lemma {:induction false} TrailOkSpaces(t: string, i: nat, k: nat)
    requires i <= k < |t| && NoNewline(t, i, k + 1) && TrailOk(t, i)
    ensures IsSpace(t[k])
    decreases k - i
  {
    if i < k {
      TrailOkSpaces(t, i + 1, k);
    }
  }

  /** The greedy whitespace run is pinned down by its end. */
  lemma {:induction false} RunEndAt(t: string, i: nat, j: nat)
    requires i <= j <= |t| && SpacesBetween(t, i, j) && (j < |t| ==> !IsSpace(t[j]))
    ensures SpaceRunEnd(t, i) == j
  {
    var r := SpaceRunEnd(t, i);
    assert r < |t| ==> !IsSpace(t[r]);
  }

  /** The leading `\s*` ends exactly where `trim_start` cuts. */
  lemma {:induction false} RunEndIsTrimStart(t: string)
    ensures TrimStart(t) == t[SpaceRunEnd(t, 0)..]
  {
    TrimStartDrops(t);
    var ts := TrimStart(t);
    var k := |t| - |ts|;
    assert k < |t| ==> t[k] == ts[0];
    RunEndAt(t, 0, k);
  }

  /** The plain alternative succeeds at any character that is not a line feed. */
  lemma {:induction false} PlainAlternative(t: string, s: nat)
    requires s < |t| && t[s] != '\n'
    ensures TryAlternatives(t, s).Some?
  {
    var l := LineEnd(t, s);
    LazyEndFinds(t, s + 1, Plain, l);
  }

  /** Giving back characters of the leading `\s*` reaches every position down to the line start. */
  lemma {:induction false} MatchAtReaches(t: string, p: nat, s: nat, w: nat)
    requires p <= w <= s <= |t| && TryAlternatives(t, w).Some?
    ensures MatchAt(t, p, s).Some?
    decreases s
  {
    if w < s && TryAlternatives(t, s).None? {
      MatchAtReaches(t, p, s - 1, w);
    }
  }

  // ---------------------------------------------------------------------------------------------
  // What the post-processing does

  /** The expression matches exactly when the reply holds a character other than a line feed. */
  lemma {:induction false} MatchesIff(t: string)
    ensures SanitizeAsWritten(t).Ok? <==> exists i :: 0 <= i < |t| && t[i] != '\n'
  {
    if SanitizeAsWritten(t).Ok? {
      var c := Search(t, 0).value;
      assert t[c.start] != '\n';
    }
    if i :| 0 <= i < |t| && t[i] != '\n' {
      var q := SpaceRunEnd(t, 0);
      var w := if q < |t| then q else i;
      PlainAlternative(t, w);
      MatchAtReaches(t, 0, q, w);
    }
  }

  /** Where the first line with a visible character lies: it starts at the end `q` of the leading
      whitespace and runs to the line end `l`. */
  lemma {:induction false} FirstVisibleLine(t: string) returns (q: nat, l: nat)
    requires !IsBlank(t)
    ensures q == SpaceRunEnd(t, 0) && q < l <= |t|
    ensures NoNewline(t, q, l) && AtLineEnd(t, l)
    ensures FirstLine(TrimStart(t)) == t[q..l]
    ensures t[q] == TrimStart(t)[0] && !IsSpace(t[q])
  {
    q := SpaceRunEnd(t, 0);
    RunEndIsTrimStart(t);
    assert q < |t| by {
      assert !SpacesBetween(t, 0, |t|);
    }
    l := LineEnd(t, q);
    FirstLineFrom(t, q);
  }

  /** The search stops at the first line start when the alternation succeeds right after the
      leading whitespace, and the capture `m` is the result. */
  lemma {:induction false} SanitizeAtFirstLine(t: string, c: Capture, m: string)
    requires TryAlternatives(t, SpaceRunEnd(t, 0)) == Some(c)
    requires c.start <= c.end <= |t| && t[c.start..c.end] == m
    ensures SanitizeAsWritten(t) == Ok(m)
  {
    assert Search(t, 0) == Some(c);
  }

  /** The plain alternative on a line whose visible text is `t[q..e]`. */
  lemma {:induction false} PlainCapture(t: string, q: nat, e: nat, l: nat)
    requires q < e <= l <= |t| && NoNewline(t, q, l) && AtLineEnd(t, l)
    requires t[q] != '`' && SpacesBetween(t, e, l) && !IsSpace(t[e - 1])
    ensures TryAlternatives(t, q) == Some(Capture(2, q, e))
  {
    PlainLazyEnd(t, q, e, l);
  }

  /** Group 2, started at `q`, stops lazily at the end `e` of the visible text of the line. */
  lemma {:induction false} PlainLazyEnd(t: string, q: nat, e: nat, l: nat)
    requires q < e <= l <= |t| && NoNewline(t, q, l) && AtLineEnd(t, l)
    requires SpacesBetween(t, e, l) && !IsSpace(t[e - 1])
    ensures LazyEnd(t, q + 1, Plain) == Some(e)
  {
    TrailOkWhen(t, e, l);
    LazyEndFinds(t, q + 1, Plain, e);
    var v := LazyEnd(t, q + 1, Plain).value;
    if v < e {
      TrailOkSpaces(t, v, e - 1);
    }
  }

  /** Before the end `e` of the visible text, the closing `\s*` and backtick cannot match: the
      backtick it would need is either whitespace or followed by the non-space backtick at `c`. */
  lemma {:induction false} NoEarlyClosing(t: string, v: nat, e: nat, c: nat)
    requires v < e <= c < |t| && NoNewline(t, v, c + 1)
    requires t[c] == '`' && !IsSpace(t[e - 1])
    ensures !ClosingOk(t, v)
  {
    var j := SpaceRunEnd(t, v);
    if ClosingOk(t, v) && j < c {
      TrailOkSpaces(t, j + 1, c);
    }
  }

  /** Group 1, started at `u`, stops lazily at the end `e` of the visible text before the closing
      backtick at `c`. */
  lemma {:induction false} QuotedLazyEnd(t: string, u: nat, e: nat, c: nat, l: nat)
    requires u < e <= c < l <= |t| && NoNewline(t, u, l) && AtLineEnd(t, l)
    requires t[c] == '`' && SpacesBetween(t, c + 1, l)
    requires SpacesBetween(t, e, c) && !IsSpace(t[e - 1])
    ensures LazyEnd(t, u + 1, Quoted) == Some(e)
  {
    RunEndAt(t, e, c);
    TrailOkWhen(t, c + 1, l);
    assert ClosingOk(t, e);
    LazyEndFinds(t, u + 1, Quoted, e);
    var v := LazyEnd(t, u + 1, Quoted).value;
    if v < e {
      NoEarlyClosing(t, v, e, c);
    }
  }

  /** The backtick alternative on a line whose visible text is `t[q..c+1]`, with `t[q]` and `t[c]`
      backticks and the visible part of what lies between them at `t[u..e]`. */
  lemma {:induction false} QuotedCapture(t: string, q: nat, u: nat, e: nat, c: nat, l: nat)
    requires q < u < e <= c < l <= |t| && NoNewline(t, q, l) && AtLineEnd(t, l)
    requires t[q] == '`' && t[c] == '`' && SpacesBetween(t, c + 1, l)
    requires SpacesBetween(t, q + 1, u) && SpacesBetween(t, e, c)
    requires !IsSpace(t[u]) && !IsSpace(t[e - 1])
    ensures TryAlternatives(t, q) == Some(Capture(1, u, e))
  {
    RunEndAt(t, q + 1, u);
    QuotedLazyEnd(t, u, e, c, l);
    assert QuotedFrom(t, q + 1, u) == Some(Capture(1, u, e));
  }

  /** The visible text of the line `t[q..l]` that starts with a visible character is `t[q..c+1]`. */
  lemma {:induction false} TrimmedLine(t: string, q: nat, l: nat) returns (c: nat)
    requires q < l <= |t| && !IsSpace(t[q])
    ensures q <= c < l && Trim(t[q..l]) == t[q..c + 1]
    ensures SpacesBetween(t, c + 1, l) && !IsSpace(t[c])
  {
    var x := t[q..l];
    var a, b := TrimBounds(x);
    assert x[0] == t[q];
    assert a == 0;
    assert !IsBlank(x);
    c := q + b - 1;
    assert t[c] == x[b - 1] == Trim(x)[b - 1];
    forall k | c + 1 <= k < l
      ensures IsSpace(t[k])
    {
      assert t[k] == x[k - q];
    }
    assert x[a..b] == t[q..c + 1];
  }

  /** The visible text of the first visible line: it is `t[q..e]`, inside the line `t[q..l]`. */
  lemma {:induction false} VisibleText(t: string) returns (q: nat, e: nat, l: nat)
    requires !IsBlank(t)
    ensures q == SpaceRunEnd(t, 0) && q < e <= l <= |t| && NoNewline(t, q, l) && AtLineEnd(t, l)
    ensures t[q] == TrimStart(t)[0] && SpacesBetween(t, e, l) && !IsSpace(t[e - 1])
    ensures t[q..e] == Trim(FirstLine(TrimStart(t)))
  {
    q, e, l := VisibleLine(t);
  }

  /** VisibleText, together with where the first visible line lies. */
  lemma {:induction false} VisibleLine(t: string) returns (q: nat, e: nat, l: nat)
    requires !IsBlank(t)
    ensures q == SpaceRunEnd(t, 0) && q < e <= l <= |t| && NoNewline(t, q, l) && AtLineEnd(t, l)
    ensures t[q] == TrimStart(t)[0] && SpacesBetween(t, e, l) && !IsSpace(t[e - 1])
    ensures t[q..e] == Trim(FirstLine(TrimStart(t))) && FirstLine(TrimStart(t)) == t[q..l]
  {
    q, l := FirstVisibleLine(t);
    var c := TrimmedLine(t, q, l);
    e := c + 1;
  }


  /** On a first visible line that does not start with a backtick, the plain alternative captures
      the line's visible text. */
  lemma {:induction false} PlainFirstLine(t: string) returns (q: nat, e: nat)
    requires !IsBlank(t) && TrimStart(t)[0] != '`'
    ensures q == SpaceRunEnd(t, 0) && q < e <= |t| && TryAlternatives(t, q) == Some(Capture(2, q, e))
    ensures t[q..e] == Trim(FirstLine(TrimStart(t)))
  {
    var l;
    q, e, l := VisibleText(t);
    PlainCapture(t, q, e, l);
  }

  /** The first line with a visible character, when it does not start with a backtick, is the
      message, trimmed; the lines after it are ignored. */
  lemma {:induction false} PlainLine(t: string)
    requires !IsBlank(t) && TrimStart(t)[0] != '`'
    ensures SanitizeAsWritten(t) == Ok(Trim(FirstLine(TrimStart(t))))
  {
    var q, e := PlainFirstLine(t);
    SanitizeAtFirstLine(t, Capture(2, q, e), Trim(FirstLine(TrimStart(t))));
  }

  /** The text ends with a backtick. */
  predicate EndsWithBacktick(s: string)
  {
    s != [] && s[|s| - 1] == '`'
  }

  /** No backtick in `s` from index `a` on. */
  predicate NoBacktickFrom(s: string, a: nat)
  {
    forall k :: a <= k < |s| ==> s[k] != '`'
  }

  /** On the line `t[q..l]` whose visible text `t[q..e]` ends with neither whitespace nor a
      backtick, and with no backtick after the line, the closing `\s*` and backtick cannot match
      from any `v` in the line: the only backticks the run from `v` can reach are in the line,
      before the last visible character. */
  lemma {:induction false} NoClosingOnLine(t: string, v: nat, q: nat, e: nat, l: nat)
    requires q < e <= l <= |t| && q <= v <= l && NoNewline(t, q, l) && AtLineEnd(t, l)
    requires SpacesBetween(t, e, l) && !IsSpace(t[e - 1]) && t[e - 1] != '`' && NoBacktickFrom(t, l)
    ensures !ClosingOk(t, v)
  {
    var j := SpaceRunEnd(t, v);
    if ClosingOk(t, v) && j + 1 < e {
      TrailOkSpaces(t, j + 1, e - 1);
    }
  }

  /** Group 1 cannot end anywhere on such a line. */
  lemma {:induction false} NoQuotedEnd(t: string, f: nat, q: nat, e: nat, l: nat)
    requires q < e <= l <= |t| && NoNewline(t, q, l) && AtLineEnd(t, l)
    requires SpacesBetween(t, e, l) && !IsSpace(t[e - 1]) && t[e - 1] != '`' && NoBacktickFrom(t, l)
    requires q + 1 < f <= |t| && f - 1 <= l
    ensures LazyEnd(t, f, Quoted).None?
    decreases |t| - f
  {
    if t[f - 1] != '\n' {
      NoClosingOnLine(t, f, q, e, l);
      if f < |t| {
        NoQuotedEnd(t, f + 1, q, e, l);
      }
    }
  }

  /** However much of the whitespace after the opening backtick is given back, group 1 fails. */
  lemma {:induction false} NoQuotedCapture(t: string, u: nat, q: nat, e: nat, l: nat)
    requires q < e <= l <= |t| && NoNewline(t, q, l) && AtLineEnd(t, l)
    requires SpacesBetween(t, e, l) && !IsSpace(t[e - 1]) && t[e - 1] != '`' && NoBacktickFrom(t, l)
    requires q + 1 <= u < l
    ensures QuotedFrom(t, q + 1, u).None?
    decreases u
  {
    if u < |t| {
      NoQuotedEnd(t, u + 1, q, e, l);
    }
    if q + 1 < u {
      NoQuotedCapture(t, u - 1, q, e, l);
    }
  }

  /** A line that opens with a backtick but whose visible text does not close with one, with no
      backtick after it, falls to the plain alternative. */
  lemma {:induction false} UnclosedCapture(t: string, q: nat, e: nat, l: nat)
    requires q < e <= l <= |t| && NoNewline(t, q, l) && AtLineEnd(t, l)
    requires t[q] == '`' && SpacesBetween(t, e, l) && !IsSpace(t[e - 1]) && t[e - 1] != '`'
    requires NoBacktickFrom(t, l)
    ensures TryAlternatives(t, q) == Some(Capture(2, q, e))
  {
    var u := SpaceRunEnd(t, q + 1);
    NoQuotedCapture(t, u, q, e, l);
    PlainLazyEnd(t, q, e, l);
  }

  /** The absence of backticks after the first line, read in the text itself. */
  lemma NoBacktickAfterLine(t: string, q: nat, l: nat)
    requires q <= l <= |t| && TrimStart(t) == t[q..] && FirstLine(TrimStart(t)) == t[q..l]
    requires NoBacktickFrom(TrimStart(t), |FirstLine(TrimStart(t))|)
    ensures NoBacktickFrom(t, l)
  {
    forall k | l <= k < |t|
      ensures t[k] != '`'
    {
      assert t[k] == TrimStart(t)[k - q];
    }
  }

  /** A first visible line that opens with a backtick but, trimmed, does not end with one is the
      message, trimmed, provided no backtick follows that line (a later one could close the
      backtick alternative across the line feed). */
  lemma {:induction false} UnclosedBacktickLine(t: string)
    requires !IsBlank(t) && TrimStart(t)[0] == '`'
    requires !EndsWithBacktick(Trim(FirstLine(TrimStart(t))))
    requires NoBacktickFrom(TrimStart(t), |FirstLine(TrimStart(t))|)
    ensures SanitizeAsWritten(t) == Ok(Trim(FirstLine(TrimStart(t))))
  {
    var q, e, l := VisibleLine(t);
    RunEndIsTrimStart(t);
    NoBacktickAfterLine(t, q, l);
    assert t[e - 1] == t[q..e][e - 1 - q];
    UnclosedCapture(t, q, e, l);
    SanitizeAtFirstLine(t, Capture(2, q, e), Trim(FirstLine(TrimStart(t))));
  }

  /** A reply "`foo` bar" is taken whole: its backtick opens a pair that does not end the line. */
  lemma BacktickInsideLine()
    ensures SanitizeAsWritten("`foo` bar") == Ok("`foo` bar")
  {
    var t := "`foo` bar";
    assert TrimStart(t) == t;
    LineEndAt(t, 0, |t|);
    assert t[..|t|] == t;
    TrimUnique(t, 0, |t|);
    assert t[0..|t|] == t;
    UnclosedBacktickLine(t);
  }

  /** Where the trimmed text of a piece `t[i..j]` lies in `t`: at `t[u..e]`, with only whitespace
      around it inside the piece. */
  lemma {:induction false} TrimWithin(t: string, i: nat, j: nat) returns (u: nat, e: nat)
    requires i <= j <= |t| && !IsBlank(t[i..j])
    ensures i <= u < e <= j && t[u..e] == Trim(t[i..j])
    ensures SpacesBetween(t, i, u) && SpacesBetween(t, e, j)
    ensures !IsSpace(t[u]) && !IsSpace(t[e - 1])
  {
    var m := t[i..j];
    var a, b := TrimBounds(m);
    u, e := i + a, i + b;
    SpacesInSlice(t, i, j, 0, a);
    SpacesInSlice(t, i, j, b, j - i);
    SliceOfSlice(t, i, j, a, b);
    assert t[u] == Trim(m)[0] && t[e - 1] == Trim(m)[b - a - 1];
  }

  /** A piece of the text that reads backtick, `m`, backtick. */
  lemma {:induction false} BacktickPiece(t: string, q: nat, e: nat, m: string)
    requires q < e <= |t| && t[q..e] == ['`'] + m + ['`']
    ensures q + 1 < e && t[q] == '`' && t[e - 1] == '`' && t[q + 1..e - 1] == m
  {
    var y := ['`'] + m + ['`'];
    assert t[q] == t[q..e][0] == y[0];
    assert t[e - 1] == t[q..e][|m| + 1] == y[|m| + 1];
    forall k | 0 <= k < |m|
      ensures t[q + 1 + k] == m[k]
    {
      assert t[q + 1 + k] == t[q..e][k + 1] == y[k + 1];
    }
  }

  /** On a first visible line of the form backtick, `m`, backtick (after trimming), the backtick
      alternative captures the trimmed `m`. */
  lemma {:induction false} QuotedFirstLine(t: string, m: string) returns (u: nat, e: nat)
    requires !IsBlank(t) && Trim(FirstLine(TrimStart(t))) == ['`'] + m + ['`']
    requires !IsBlank(m)
    ensures u <= e <= |t| && TryAlternatives(t, SpaceRunEnd(t, 0)) == Some(Capture(1, u, e))
    ensures t[u..e] == Trim(m)
  {
    var q, c, l := VisibleText(t);
    BacktickPiece(t, q, c, m);
    u, e := TrimWithin(t, q + 1, c - 1);
    QuotedCapture(t, q, u, e, c - 1, l);
  }

  /** A first visible line of the form backtick, `m`, backtick (after trimming) gives the trimmed
      text between the backticks, provided that text is not blank. */
  lemma {:induction false} QuotedLine(t: string, m: string)
    requires Trim(FirstLine(TrimStart(t))) == ['`'] + m + ['`']
    requires !IsBlank(m)
    ensures SanitizeAsWritten(t) == Ok(Trim(m))
  {
    assert !IsBlank(t) by {
      assert |FirstLine(TrimStart(t))| >= 2;
    }
    var u, e := QuotedFirstLine(t, m);
    SanitizeAtFirstLine(t, Capture(1, u, e), Trim(m));
  }

  // ---------------------------------------------------------------------------------------------
  // Blank replies

  /** Every piece of a blank text is blank. */
  lemma BlankSlice(t: string, i: nat, j: nat)
    requires i <= j <= |t| && IsBlank(t)
    ensures IsBlank(t[i..j])
  {
    forall k | 0 <= k < j - i
      ensures IsSpace(t[i..j][k])
    {
      assert t[i..j][k] == t[i + k];
    }
  }

  /** As written, a reply made only of whitespace is accepted as soon as it holds one character
      other than a line feed, and the message is then itself whitespace. */
  lemma {:induction false} BlankReplyMatches(t: string, i: nat)
    requires IsBlank(t) && i < |t| && t[i] != '\n'
    ensures SanitizeAsWritten(t).Ok? && IsBlank(SanitizeAsWritten(t).value)
  {
    MatchesIff(t);
    var c := Search(t, 0).value;
    BlankSlice(t, c.start, c.end);
  }

  /** A reply of three spaces yields a one-space message. */
  lemma BlankReplyAccepted()
    ensures SanitizeAsWritten("   ") == Ok(" ")
  {
    var t := "   ";
    assert SpaceRunEnd(t, 0) == 3;
    assert TryAlternatives(t, 3) == None;
    assert LazyEnd(t, 3, Plain) == Some(3);
    assert TryAlternatives(t, 2) == Some(Capture(2, 2, 3));
    assert MatchAt(t, 0, 2) == Some(Capture(2, 2, 3));
    assert MatchAt(t, 0, 3) == Some(Capture(2, 2, 3));
    assert Search(t, 0) == Some(Capture(2, 2, 3));
    assert t[2..3] == " ";
  }

  /** Past a closing backtick `t[c]` followed by whitespace to the line end `l`, with no backtick
      after that line, the closing `\s*` and backtick cannot match (the whitespace run from there
      ends at no backtick), so group 1 cannot end anywhere from `f` on. */
  lemma {:induction false} NoLazyEndAfter(t: string, c: nat, l: nat, f: nat)
    requires c < f <= |t| && c < l <= |t| && SpacesBetween(t, c + 1, l) && NoBacktickFrom(t, l)
    ensures LazyEnd(t, f, Quoted).None?
    decreases |t| - f
  {
    if f < |t| {
      NoLazyEndAfter(t, c, l, f + 1);
    }
  }

  /** As written, a first visible line of the form backtick, blank `m`, backtick gives the last
      character of `m`: the `\s*` after the opening backtick takes all of `m`, group 1 cannot
      start at the closing backtick, and giving back one character lets group 1 take it. The
      lines after it do not matter, provided none of them holds a backtick. */
  lemma {:induction false} BlankInsideBackticks(t: string, m: string)
    requires Trim(FirstLine(TrimStart(t))) == ['`'] + m + ['`']
    requires m != [] && IsBlank(m)
    requires NoBacktickFrom(TrimStart(t), |FirstLine(TrimStart(t))|)
    ensures SanitizeAsWritten(t) == Ok([m[|m| - 1]])
    ensures IsBlank(SanitizeAsWritten(t).value)
  {
    var q, c, l := BacktickLine(t, m);
    assert SpacesBetween(t, q + 1, c) by {
      forall k | q + 1 <= k < c
        ensures IsSpace(t[k])
      {
        assert t[k] == t[q + 1..c][k - q - 1];
      }
    }
    BlankQuotedCapture(t, q, c, l);
    assert t[c - 1..c] == [m[|m| - 1]] by {
      assert t[c - 1] == t[q + 1..c][|m| - 1];
    }
    SanitizeAtFirstLine(t, Capture(1, c - 1, c), [m[|m| - 1]]);
  }

  /** Where a first visible line of the form backtick, `m`, backtick lies: the backticks are at
      `t[q]` and `t[c]`, and the line ends at `l` with no backtick after it. */
  lemma {:induction false} BacktickLine(t: string, m: string) returns (q: nat, c: nat, l: nat)
    requires Trim(FirstLine(TrimStart(t))) == ['`'] + m + ['`']
    requires NoBacktickFrom(TrimStart(t), |FirstLine(TrimStart(t))|)
    ensures q == SpaceRunEnd(t, 0) && q < c < l <= |t| && NoNewline(t, q, l) && AtLineEnd(t, l)
    ensures t[q] == '`' && t[c] == '`' && t[q + 1..c] == m
    ensures SpacesBetween(t, c + 1, l) && NoBacktickFrom(t, l)
  {
    assert !IsBlank(t) by {
      assert |FirstLine(TrimStart(t))| >= 2;
    }
    var e;
    q, e, l := VisibleLine(t);
    RunEndIsTrimStart(t);
    NoBacktickAfterLine(t, q, l);
    BacktickPiece(t, q, e, m);
    c := e - 1;
  }

  /** The backtick alternative on a line whose visible text is `t[q..c+1]`, backticks at both
      ends and only whitespace between them: group 1 takes the last of that whitespace. */
  lemma {:induction false} BlankQuotedCapture(t: string, q: nat, c: nat, l: nat)
    requires q + 1 < c < l <= |t| && NoNewline(t, q, l) && AtLineEnd(t, l)
    requires t[q] == '`' && t[c] == '`' && SpacesBetween(t, q + 1, c)
    requires SpacesBetween(t, c + 1, l) && NoBacktickFrom(t, l)
    ensures TryAlternatives(t, q) == Some(Capture(1, c - 1, c))
  {
    RunEndAt(t, q + 1, c);
    NoLazyEndAfter(t, c, l, c + 1);
    RunEndAt(t, c, c);
    TrailOkWhen(t, c + 1, l);
    assert LazyEnd(t, c, Quoted) == Some(c);
    assert QuotedFrom(t, q + 1, c) == Some(Capture(1, c - 1, c));
  }

  /** The reply "` `" gives a one-space message, and so does "`  `" followed by a line that holds
      the actual subject. */
  lemma BlankBetweenBackticks()
    ensures SanitizeAsWritten("` `") == Ok(" ")
    ensures SanitizeAsWritten("`  `\nfix: x") == Ok(" ")
  {
    var t := "` `";
    assert SpaceRunEnd(t, 0) == 0 && SpaceRunEnd(t, 1) == 2;
    assert LazyEnd(t, 3, Quoted) == None;
    assert LazyEnd(t, 2, Quoted) == Some(2);
    assert TryAlternatives(t, 0) == Some(Capture(1, 1, 2));
    assert t[1..2] == " ";
    var w := "`  `\nfix: x";
    assert SpaceRunEnd(w, 0) == 0 && SpaceRunEnd(w, 1) == 3;
    assert SpaceRunEnd(w, 4) == 5;
    assert LazyEnd(w, 5, Quoted) == None;
    assert LazyEnd(w, 4, Quoted) == None;
    assert TrailOk(w, 4);
    assert LazyEnd(w, 3, Quoted) == Some(3);
    assert TryAlternatives(w, 0) == Some(Capture(1, 2, 3));
    assert w[2..3] == " ";
  }

  /** A lone backtick, and two backticks with nothing between them, are taken as they are: the
      backtick alternative needs a non-empty group 1 before a closing backtick. */
  lemma LoneBackticks()
    ensures SanitizeAsWritten("`") == Ok("`")
    ensures SanitizeAsWritten("``") == Ok("``")
  {
    var t := "`";
    assert SpaceRunEnd(t, 1) == 1;
    assert TryAlternatives(t, 0) == Some(Capture(2, 0, 1));
    assert Search(t, 0) == Some(Capture(2, 0, 1));
    assert t[0..1] == t;
    var w := "``";
    assert SpaceRunEnd(w, 0) == 0 && SpaceRunEnd(w, 1) == 1;
    assert !ClosingOk(w, 2);
    assert LazyEnd(w, 2, Quoted) == None;
    assert !TrailOk(w, 1);
    assert LazyEnd(w, 1, Plain) == Some(2);
    assert TryAlternatives(w, 0) == Some(Capture(2, 0, 2));
    assert Search(w, 0) == Some(Capture(2, 0, 2));
    assert w[0..2] == w;
  }

  /** Corrected: a reply with no visible character is refused. */
  lemma {:induction false} SanitizeRejectsBlank(t: string)
    requires IsBlank(t)
    ensures Sanitize(t) == Err(PostProcessingFailed)
  {
    if SanitizeAsWritten(t).Ok? {
      var c := Search(t, 0).value;
      BlankSlice(t, c.start, c.end);
    }
  }

  /** Corrected: a first visible line of the form backtick, blank text, backtick is refused,
      whereas as written it gives a whitespace message. */
  lemma {:induction false} SanitizeRejectsBlankInsideBackticks(t: string, m: string)
    requires Trim(FirstLine(TrimStart(t))) == ['`'] + m + ['`']
    requires m != [] && IsBlank(m)
    requires NoBacktickFrom(TrimStart(t), |FirstLine(TrimStart(t))|)
    ensures Sanitize(t) == Err(PostProcessingFailed)
  {
    BlankInsideBackticks(t, m);
  }

  /** Corrected: on a first visible line that does not start with a backtick the message is that
      line, trimmed. */
  lemma {:induction false} SanitizePlainLine(t: string)
    requires !IsBlank(t) && TrimStart(t)[0] != '`'
    ensures Sanitize(t) == Ok(Trim(FirstLine(TrimStart(t))))
  {
    PlainLine(t);
    var q, e, l := VisibleText(t);
  }

  /** Corrected: a first visible line that opens with a backtick it does not close, with no
      backtick after it, is the message, trimmed. */
  lemma {:induction false} SanitizeUnclosedBacktickLine(t: string)
    requires !IsBlank(t) && TrimStart(t)[0] == '`'
    requires !EndsWithBacktick(Trim(FirstLine(TrimStart(t))))
    requires NoBacktickFrom(TrimStart(t), |FirstLine(TrimStart(t))|)
    ensures Sanitize(t) == Ok(Trim(FirstLine(TrimStart(t))))
  {
    UnclosedBacktickLine(t);
    var q, e, l := VisibleText(t);
  }

  /** Corrected: on a first visible line that reads backtick, `m`, backtick, with `m` not blank,
      the message is `m`, trimmed. */
  lemma {:induction false} SanitizeQuotedLine(t: string, m: string)
    requires Trim(FirstLine(TrimStart(t))) == ['`'] + m + ['`']
    requires !IsBlank(m)
    ensures Sanitize(t) == Ok(Trim(m))
  {
    QuotedLine(t, m);
    assert Trim(m) != [];
  }
}
