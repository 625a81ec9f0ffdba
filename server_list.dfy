/**
 * `parseServers`: `findAll` of the pattern `(,*((.+?)=(.+?:\d+)))+?` over the
 * flag text, each match giving group 3 (the server name) and group 4
 * (`host:port`), associated into an insertion-ordered map.
 *
 * The outer group is quantified lazily and nothing follows it, so every match
 * runs it exactly once: a match is `,*` then `(.+?)` then `=` then `(.+?:\d+)`.
 * The scanner below follows the backtracking order of a Java regex engine:
 * `,*` tries the most commas first and gives them back one at a time, each
 * lazy `.+?` tries its shortest extent first, and `\d+` takes every digit.
 * `.` is Java's dot without DOTALL, which matches any character except the
 * line terminators; `\d` is ASCII `0`-`9`.
 */
module ServerList {
  import opened Wrappers
  import opened AssocLists

  predicate IsDot(ch: char) {
    ch != '\n' && ch != '\r' && ch != '\U{85}' && ch != '\U{2028}' && ch != '\U{2029}'
  }

  predicate IsDigit(ch: char) {
    '0' <= ch <= '9'
  }

  ghost predicate AllDot(s: string, lo: nat, hi: nat)
    requires lo <= hi <= |s|
  {
    forall k :: lo <= k < hi ==> IsDot(s[k])
  }

  ghost predicate AllDigits(s: string, lo: nat, hi: nat)
    requires lo <= hi <= |s|
  {
    forall k :: lo <= k < hi ==> IsDigit(s[k])
  }

  ghost predicate AllCommas(s: string, lo: nat, hi: nat)
    requires lo <= hi <= |s|
  {
    forall k :: lo <= k < hi ==> s[k] == ','
  }

  /** A `:` at `c` with a digit after it: where `:\d+` can start. */
  predicate ColonDigitAt(s: string, c: nat) {
    c + 1 < |s| && s[c] == ':' && IsDigit(s[c + 1])
  }

  // ---------------------------------------------------------------------------
  // What a match is: the text the pattern accepts, positions in the whole input.

  /** `(.+?:\d+)` spans `s[v..end]`, its `:` at `colon`, and `\d+` took every digit. */
  ghost predicate ValueShaped(s: string, v: nat, colon: nat, end: nat) {
    && v < colon && colon + 1 < end <= |s|
    && AllDot(s, v, colon)
    && s[colon] == ':'
    && AllDigits(s, colon + 1, end)
    && (end == |s| || !IsDigit(s[end]))
  }

  /** `(.+?)=(.+?:\d+)` from `n`: name `s[n..eq]`, `=` at `eq`, then the value. */
  ghost predicate NameShaped(s: string, n: nat, eq: nat, colon: nat, end: nat) {
    && n < eq
    && ValueShaped(s, eq + 1, colon, end)
    && AllDot(s, n, eq)
    && s[eq] == '='
  }

  /** A match: commas `s[start..nameStart]`, name `s[nameStart..eq]`, value `s[eq+1..end]`. */
  datatype Match = Match(start: nat, nameStart: nat, eq: nat, colon: nat, end: nat)

  ghost predicate Shaped(s: string, m: Match) {
    && m.start <= m.nameStart
    && NameShaped(s, m.nameStart, m.eq, m.colon, m.end)
    && AllCommas(s, m.start, m.nameStart)
  }

  /**
   * The order in which the engine tries two ways of matching at one start:
   * more leading commas first, then the shorter name, then the shorter host.
   */
  ghost predicate TriedFirst(m: Match, m': Match) {
    || m.nameStart > m'.nameStart
    || (m.nameStart == m'.nameStart && m.eq < m'.eq)
    || (m.nameStart == m'.nameStart && m.eq == m'.eq && m.colon <= m'.colon)
  }

  // ---------------------------------------------------------------------------
  // The scanner. Each function carries only the bounds its callers need; what
  // it computes is characterised by the lemmas in the next section.

  /** Positions of a match, in order, inside the input. */
  predicate InBounds(s: string, m: Match) {
    m.start <= m.nameStart < m.eq < m.colon < m.end <= |s|
  }

  /** `\d+` from `k`, greedy: the length of the digit run there. */
  function DigitRun(s: string, k: nat): (d: nat)
    requires k <= |s|
    ensures k + d <= |s|
    decreases |s| - k
  {
    if k < |s| && IsDigit(s[k]) then 1 + DigitRun(s, k + 1) else 0
  }

  /** The run is all digits and stops before a non-digit or at the end. */
  lemma {:induction false} DigitRunSpec(s: string, k: nat)
    requires k <= |s|
    ensures AllDigits(s, k, k + DigitRun(s, k))
    ensures k + DigitRun(s, k) == |s| || !IsDigit(s[k + DigitRun(s, k)])
    decreases |s| - k
  {
    if k < |s| && IsDigit(s[k]) {
      DigitRunSpec(s, k + 1);
    }
  }

  datatype Tail = Tail(colon: nat, end: nat)

  /**
   * The lazy host `.+?` has consumed up to `h`: try `:\d+` at `h`, otherwise
   * take one more character if `.` accepts it.
   */
  function HostFrom(s: string, h: nat): (r: Option<Tail>)
    requires h <= |s|
    ensures r.Some? ==> h <= r.value.colon && r.value.colon + 1 < r.value.end <= |s|
    decreases |s| - h
  {
    if ColonDigitAt(s, h) then Some(Tail(h, h + 1 + DigitRun(s, h + 1)))
    else if h < |s| && IsDot(s[h]) then HostFrom(s, h + 1)
    else None
  }

  /** `(.+?:\d+)` from `v`: the host takes at least one character. */
  function ValueAt(s: string, v: nat): (r: Option<Tail>)
    requires v <= |s|
    ensures r.Some? ==> v < r.value.colon && r.value.colon + 1 < r.value.end <= |s|
  {
    if v < |s| && IsDot(s[v]) then HostFrom(s, v + 1) else None
  }

  /** Where the lazy name may end: an `=` followed by a value. */
  predicate NameEndsAt(s: string, q: nat) {
    q < |s| && s[q] == '=' && ValueAt(s, q + 1).Some?
  }

  datatype Found = Found(eq: nat, colon: nat, end: nat)

  /**
   * The lazy name `.+?` has consumed up to `e`: try `=` and the value at `e`,
   * otherwise take one more character if `.` accepts it.
   */
  function NameFrom(s: string, e: nat): (r: Option<Found>)
    requires e <= |s|
    ensures r.Some? ==> e <= r.value.eq && NameEndsAt(s, r.value.eq)
    ensures r.Some? ==> ValueAt(s, r.value.eq + 1) == Some(Tail(r.value.colon, r.value.end))
    decreases |s| - e
  {
    if NameEndsAt(s, e) then
      var t := ValueAt(s, e + 1).value;
      Some(Found(e, t.colon, t.end))
    else if e < |s| && IsDot(s[e]) then NameFrom(s, e + 1)
    else None
  }

  /** `(.+?)=(.+?:\d+)` from `n`: the name takes at least one character. */
  function NameAt(s: string, n: nat): (r: Option<Found>)
    requires n <= |s|
    ensures r.Some? ==> n < r.value.eq < r.value.colon < r.value.end <= |s|
  {
    if n < |s| && IsDot(s[n]) then NameFrom(s, n + 1) else None
  }

  /** `,*` from `i`, greedy: the length of the comma run there. */
  function Commas(s: string, i: nat): (c: nat)
    requires i <= |s|
    ensures i + c <= |s|
    decreases |s| - i
  {
    if i < |s| && s[i] == ',' then 1 + Commas(s, i + 1) else 0
  }

  /** The run is all commas and stops before a non-comma or at the end. */
  lemma {:induction false} CommasSpec(s: string, i: nat)
    requires i <= |s|
    ensures AllCommas(s, i, i + Commas(s, i))
    ensures i + Commas(s, i) == |s| || s[i + Commas(s, i)] != ','
    decreases |s| - i
  {
    if i < |s| && s[i] == ',' {
      CommasSpec(s, i + 1);
    }
  }

  /** `,*` holding `c` commas: try the rest, and on failure give one comma back. */
  function Backtrack(s: string, i: nat, c: nat): (r: Option<Match>)
    requires i + c <= |s|
    ensures r.Some? ==> r.value.start == i && r.value.nameStart <= i + c && InBounds(s, r.value)
    decreases c
  {
    match NameAt(s, i + c)
    case Some(f) => Some(Match(i, i + c, f.eq, f.colon, f.end))
    case None => if c == 0 then None else Backtrack(s, i, c - 1)
  }

  /** The match the engine reports when it tries position `i`, if any. */
  function MatchAt(s: string, i: nat): (r: Option<Match>)
    requires i <= |s|
    ensures r.Some? ==> r.value.start == i && InBounds(s, r.value)
  {
    Backtrack(s, i, Commas(s, i))
  }

  /**
   * `findAll` from `p`: try each position in turn; after a match, resume at its
   * end (a match is never empty).
   */
  function FindAll(s: string, p: nat): (ms: seq<Match>)
    requires p <= |s|
    ensures forall j :: 0 <= j < |ms| ==> p <= ms[j].start && InBounds(s, ms[j])
    ensures forall j :: 0 < j < |ms| ==> ms[j - 1].end <= ms[j].start
    decreases |s| - p
  {
    match MatchAt(s, p)
    case Some(m) => [m] + FindAll(s, m.end)
    case None => if p == |s| then [] else FindAll(s, p + 1)
  }

  /** Group 3 and group 4 of a match: neither is empty, and around the `=` they make up group 2. */
  function Groups(s: string, m: Match): (g: (string, string))
    requires InBounds(s, m)
    ensures |g.0| > 0 && |g.1| > 0
    ensures Shaped(s, m) ==> g.0 + "=" + g.1 == s[m.nameStart..m.end]
  {
    var g := (s[m.nameStart..m.eq], s[m.eq + 1..m.end]);
    assert Shaped(s, m) ==> s[m.nameStart..m.end] == s[m.nameStart..m.eq] + [s[m.eq]] + s[m.eq + 1..m.end];
    g
  }

  function AllGroups(s: string, ms: seq<Match>): (gs: seq<(string, string)>)
    requires forall j :: 0 <= j < |ms| ==> InBounds(s, ms[j])
    ensures |gs| == |ms|
  {
    seq(|ms|, j requires 0 <= j < |ms| => Groups(s, ms[j]))
  }

  /** `parseServers`: a map, so each server name appears once. */
  function ParseServers(s: string): (r: AssocList<string, string>)
    ensures UniqueKeys(r)
  {
    Associate(AllGroups(s, FindAll(s, 0)))
  }

  // ---------------------------------------------------------------------------
  // What the scanner computes.

  /** A host the scanner ends is made of characters `.` accepts, then `:` and every following digit. */
  lemma {:induction false} HostFromSound(s: string, h: nat)
    requires h <= |s|
    ensures HostFrom(s, h).Some? ==>
      && AllDot(s, h, HostFrom(s, h).value.colon)
      && s[HostFrom(s, h).value.colon] == ':'
      && AllDigits(s, HostFrom(s, h).value.colon + 1, HostFrom(s, h).value.end)
      && (HostFrom(s, h).value.end == |s| || !IsDigit(s[HostFrom(s, h).value.end]))
    decreases |s| - h
  {
    if ColonDigitAt(s, h) {
      DigitRunSpec(s, h + 1);
    } else if h < |s| && IsDot(s[h]) {
      HostFromSound(s, h + 1);
    }
  }

  /** The lazy host stops at the first `:digit` it can reach, no later than `c`. */
  lemma {:induction false} HostFromFirst(s: string, h: nat, c: nat)
    requires h <= c <= |s| && AllDot(s, h, c) && ColonDigitAt(s, c)
    ensures HostFrom(s, h).Some? && HostFrom(s, h).value.colon <= c
    decreases c - h
  {
    if !ColonDigitAt(s, h) {
      assert IsDot(s[h]);
      HostFromFirst(s, h + 1, c);
    }
  }

  /** `\d+` ends where the digits do, so a value is fixed by its `:`. */
  lemma ValueEnd(s: string, v: nat, colon: nat, end1: nat, end2: nat)
    requires ValueShaped(s, v, colon, end1) && ValueShaped(s, v, colon, end2)
    ensures end1 == end2
  {
  }

  /** What `(.+?:\d+)` matches from `v` has the value's shape. */
  lemma ValueAtSound(s: string, v: nat)
    requires v <= |s|
    ensures ValueAt(s, v).Some? ==> ValueShaped(s, v, ValueAt(s, v).value.colon, ValueAt(s, v).value.end)
  {
    if v < |s| && IsDot(s[v]) {
      HostFromSound(s, v + 1);
    }
  }

  /** Wherever a value could end, `(.+?:\d+)` matches, with its `:` no later. */
  lemma ValueAtFirst(s: string, v: nat, c: nat, e: nat)
    requires ValueShaped(s, v, c, e)
    ensures ValueAt(s, v).Some? && ValueAt(s, v).value.colon <= c
  {
    assert IsDot(s[v]);
    HostFromFirst(s, v + 1, c);
  }

  /** A name the scanner ends is made of characters `.` accepts, then `=` and a value. */
  lemma {:induction false} NameFromSound(s: string, e: nat)
    requires e <= |s|
    ensures NameFrom(s, e).Some? ==> AllDot(s, e, NameFrom(s, e).value.eq)
    decreases |s| - e
  {
    if !NameEndsAt(s, e) && e < |s| && IsDot(s[e]) {
      NameFromSound(s, e + 1);
    }
  }

  /** The lazy name stops at the first `=` it can reach that a value follows, no later than `q`. */
  lemma {:induction false} NameFromFirst(s: string, e: nat, q: nat)
    requires e <= q <= |s| && AllDot(s, e, q) && NameEndsAt(s, q)
    ensures NameFrom(s, e).Some? && NameFrom(s, e).value.eq <= q
    decreases q - e
  {
    if !NameEndsAt(s, e) {
      assert IsDot(s[e]);
      NameFromFirst(s, e + 1, q);
    }
  }

  /** What `(.+?)=(.+?:\d+)` matches from `n` has the name's and value's shape. */
  lemma NameAtSound(s: string, n: nat)
    requires n <= |s|
    ensures NameAt(s, n).Some? ==>
      NameShaped(s, n, NameAt(s, n).value.eq, NameAt(s, n).value.colon, NameAt(s, n).value.end)
  {
    if n < |s| && IsDot(s[n]) {
      NameFromSound(s, n + 1);
      var r := NameAt(s, n);
      if r.Some? {
        ValueAtSound(s, r.value.eq + 1);
      }
    }
  }

  /**
   * Wherever a name and value could be, `(.+?)=(.+?:\d+)` matches, taking an
   * earlier `=`, or the same `=` and a `:` no later.
   */
  lemma NameAtFirst(s: string, n: nat, q: nat, c: nat, e: nat)
    requires NameShaped(s, n, q, c, e)
    ensures NameAt(s, n).Some?
    ensures NameAt(s, n).value.eq < q || (NameAt(s, n).value.eq == q && NameAt(s, n).value.colon <= c)
  {
    ValueAtFirst(s, q + 1, c, e);
    assert IsDot(s[n]);
    NameFromFirst(s, n + 1, q);
  }

  /** No name-and-value part starts anywhere in `[lo, hi]`. */
  ghost predicate NoNameIn(s: string, lo: nat, hi: nat)
    requires hi <= |s|
    decreases hi
  {
    lo > hi || (NameAt(s, hi).None? && (hi == 0 || NoNameIn(s, lo, hi - 1)))
  }

  lemma {:induction false} NoNameInAt(s: string, lo: nat, hi: nat, n: nat)
    requires hi <= |s| && NoNameIn(s, lo, hi) && lo <= n <= hi
    ensures NameAt(s, n).None?
    decreases hi
  {
    if n < hi {
      NoNameInAt(s, lo, hi - 1, n);
    }
  }

  /** Giving commas back stops at the first position, from the right, where the rest matches. */
  lemma {:induction false} BacktrackSpec(s: string, i: nat, c: nat)
    requires i + c <= |s|
    ensures Backtrack(s, i, c).Some? ==>
      NameAt(s, Backtrack(s, i, c).value.nameStart)
      == Some(Found(Backtrack(s, i, c).value.eq, Backtrack(s, i, c).value.colon, Backtrack(s, i, c).value.end))
    ensures Backtrack(s, i, c).Some? ==> NoNameIn(s, Backtrack(s, i, c).value.nameStart + 1, i + c)
    ensures Backtrack(s, i, c).None? ==> NoNameIn(s, i, i + c)
    decreases c
  {
    var f := NameAt(s, i + c);
    if f.Some? {
      assert f == Some(Found(f.value.eq, f.value.colon, f.value.end));
      assert Backtrack(s, i, c) == Some(Match(i, i + c, f.value.eq, f.value.colon, f.value.end));
    } else if c > 0 {
      BacktrackSpec(s, i, c - 1);
      assert Backtrack(s, i, c) == Backtrack(s, i, c - 1);
    }
  }

  /** `,*` cannot take more commas than there are. */
  lemma CommasMost(s: string, i: nat, j: nat)
    requires i <= j <= |s| && AllCommas(s, i, j)
    ensures j <= i + Commas(s, i)
  {
    CommasSpec(s, i);
  }

  /**
   * The match at `i` keeps as many of the leading commas as it can: no
   * name-and-value part starts after its commas, up to the end of the run.
   */
  lemma MatchAtSpec(s: string, i: nat)
    requires i <= |s|
    ensures MatchAt(s, i).Some? ==>
      NameAt(s, MatchAt(s, i).value.nameStart)
      == Some(Found(MatchAt(s, i).value.eq, MatchAt(s, i).value.colon, MatchAt(s, i).value.end))
    ensures MatchAt(s, i).Some? ==> NoNameIn(s, MatchAt(s, i).value.nameStart + 1, i + Commas(s, i))
    ensures MatchAt(s, i).None? ==> NoNameIn(s, i, i + Commas(s, i))
  {
    BacktrackSpec(s, i, Commas(s, i));
  }

  /** Between the match's commas and the end of the comma run, no name-and-value part starts. */
  lemma MatchAtNoLater(s: string, i: nat, n: nat)
    requires i <= |s| && MatchAt(s, i).Some? && MatchAt(s, i).value.nameStart < n <= i + Commas(s, i)
    ensures NameAt(s, n).None?
  {
    MatchAtSpec(s, i);
    NoNameInAt(s, MatchAt(s, i).value.nameStart + 1, i + Commas(s, i), n);
  }

  /** Without a match at `i`, no name-and-value part starts inside the comma run. */
  lemma MatchAtNoneSpec(s: string, i: nat, n: nat)
    requires i <= |s| && MatchAt(s, i).None? && i <= n <= i + Commas(s, i)
    ensures NameAt(s, n).None?
  {
    MatchAtSpec(s, i);
    NoNameInAt(s, i, i + Commas(s, i), n);
  }

  /** What the engine reports is a text the pattern accepts. */
  lemma MatchAtShaped(s: string, i: nat)
    requires i <= |s|
    ensures MatchAt(s, i).Some? ==> Shaped(s, MatchAt(s, i).value)
  {
    CommasSpec(s, i);
    MatchAtSpec(s, i);
    if MatchAt(s, i).Some? {
      NameAtSound(s, MatchAt(s, i).value.nameStart);
    }
  }

  /**
   * When the pattern accepts some text at `i`, the engine reports a match
   * there, and it is the one it tries first.
   */
  lemma MatchAtFirst(s: string, i: nat, m': Match)
    requires i <= |s| && Shaped(s, m') && m'.start == i
    ensures MatchAt(s, i).Some? && TriedFirst(MatchAt(s, i).value, m')
  {
    CommasMost(s, i, m'.nameStart);
    NameAtFirst(s, m'.nameStart, m'.eq, m'.colon, m'.end);
    var r := MatchAt(s, i);
    if r.None? {
      MatchAtNoneSpec(s, i, m'.nameStart);
    } else if r.value.nameStart < m'.nameStart {
      MatchAtNoLater(s, i, m'.nameStart);
    } else {
      MatchAtSpec(s, i);
    }
  }

  /**
   * The engine's match at `i` is exactly the text the pattern accepts there
   * that it tries before every other.
   */
  lemma MatchAtIff(s: string, i: nat, m: Match)
    requires i <= |s|
    ensures MatchAt(s, i) == Some(m) <==>
      Shaped(s, m) && m.start == i && forall m' :: Shaped(s, m') && m'.start == i ==> TriedFirst(m, m')
  {
    MatchAtShaped(s, i);
    if MatchAt(s, i) == Some(m) {
      forall m' | Shaped(s, m') && m'.start == i ensures TriedFirst(m, m') {
        MatchAtFirst(s, i, m');
      }
    }
    if Shaped(s, m) && m.start == i && forall m' :: Shaped(s, m') && m'.start == i ==> TriedFirst(m, m') {
      MatchAtFirst(s, i, m);
      var r := MatchAt(s, i).value;
      assert TriedFirst(m, r) && TriedFirst(r, m);
      ValueEnd(s, m.eq + 1, m.colon, m.end, r.end);
    }
  }

  // ---------------------------------------------------------------------------
  // What `findAll` reports.

  /** Every reported match is the one the engine finds when it tries its start. */
  lemma {:induction false} FindAllReported(s: string, p: nat, j: nat)
    requires p <= |s| && j < |FindAll(s, p)|
    ensures MatchAt(s, FindAll(s, p)[j].start) == Some(FindAll(s, p)[j])
    decreases |s| - p
  {
    match MatchAt(s, p)
    case Some(m) =>
      if j > 0 {
        FindAllReported(s, m.end, j - 1);
      }
    case None =>
      FindAllReported(s, p + 1, j);
  }

  /** After a reported match the search goes on from its end. */
  lemma {:induction false} FindAllSuffix(s: string, p: nat, j: nat)
    requires p <= |s| && j < |FindAll(s, p)|
    ensures FindAll(s, FindAll(s, p)[j].end) == FindAll(s, p)[j + 1..]
    decreases |s| - p
  {
    match MatchAt(s, p)
    case Some(m) =>
      if j > 0 {
        FindAllSuffix(s, m.end, j - 1);
      }
    case None =>
      FindAllSuffix(s, p + 1, j);
  }

  /** Every position the search passes over before its first match has no match. */
  lemma {:induction false} FindAllSkips(s: string, p: nat, q: nat)
    requires p <= q <= |s|
    requires FindAll(s, p) == [] || q < FindAll(s, p)[0].start
    ensures MatchAt(s, q).None?
    decreases q - p
  {
    if q > p {
      assert FindAll(s, p) == FindAll(s, p + 1);
      FindAllSkips(s, p + 1, q);
    }
  }

  /** Between two reported matches, and after the last one, no position has a match. */
  lemma FindAllGap(s: string, p: nat, j: nat, q: nat)
    requires p <= |s| && j < |FindAll(s, p)|
    requires FindAll(s, p)[j].end <= q <= |s|
    requires j + 1 == |FindAll(s, p)| || q < FindAll(s, p)[j + 1].start
    ensures MatchAt(s, q).None?
  {
    FindAllSuffix(s, p, j);
    FindAllSkips(s, FindAll(s, p)[j].end, q);
  }

  /** A text the pattern accepts anywhere from `p` on makes the search report something. */
  lemma {:induction false} FindAllFinds(s: string, p: nat, m: Match)
    requires p <= m.start && Shaped(s, m)
    ensures FindAll(s, p) != []
    decreases |s| - p
  {
    if MatchAt(s, p).None? {
      if p == m.start {
        MatchAtFirst(s, p, m);
      } else {
        FindAllFinds(s, p + 1, m);
      }
    }
  }

  /** With no text the pattern accepts from `p` on, the search reports nothing. */
  lemma {:induction false} FindAllNone(s: string, p: nat)
    requires p <= |s|
    requires forall m :: Shaped(s, m) ==> m.start < p
    ensures FindAll(s, p) == []
    decreases |s| - p
  {
    MatchAtShaped(s, p);
    if p < |s| {
      FindAllNone(s, p + 1);
    }
  }

  // ---------------------------------------------------------------------------
  // What `parseServers` returns.

  /** A server name: at least one character, each accepted by `.`. */
  ghost predicate ServerName(n: string) {
    |n| > 0 && forall k :: 0 <= k < |n| ==> IsDot(n[k])
  }

  /** `v` is a host of characters `.` accepts, then `:` at `c`, then digits to the end. */
  ghost predicate HostPortAt(v: string, c: nat) {
    && 0 < c && c + 1 < |v| && v[c] == ':'
    && (forall k :: 0 <= k < c ==> IsDot(v[k]))
    && (forall k :: c < k < |v| ==> IsDigit(v[k]))
  }

  ghost predicate IsHostPort(v: string) {
    exists c :: HostPortAt(v, c)
  }

  lemma GroupsShaped(s: string, m: Match)
    requires Shaped(s, m)
    ensures ServerName(Groups(s, m).0)
    ensures HostPortAt(Groups(s, m).1, m.colon - (m.eq + 1))
  {
  }

  /**
   * The map is empty exactly when no text in the input has the pattern's
   * shape; in particular for `""` and for any input without `=`.
   */
  lemma ParseServersEmpty(s: string)
    ensures ParseServers(s) == [] <==> forall m :: !Shaped(s, m)
    ensures '=' !in s ==> ParseServers(s) == []
  {
    var ms := FindAll(s, 0);
    AssociateKeyOrder(AllGroups(s, ms));
    if ParseServers(s) == [] {
      assert ms == [];
      forall m | Shaped(s, m) ensures false {
        FindAllFinds(s, 0, m);
      }
    }
    if forall m :: !Shaped(s, m) {
      FindAllNone(s, 0);
    }
    if '=' !in s {
      FindAllNone(s, 0);
    }
  }

  /** Every entry names a server and gives it a `host:port` taken from the input. */
  lemma ParseServersEntries(s: string, i: nat)
    requires i < |ParseServers(s)|
    ensures ServerName(ParseServers(s)[i].0)
    ensures IsHostPort(ParseServers(s)[i].1)
  {
    var ms := FindAll(s, 0);
    var ps := AllGroups(s, ms);
    assert ParseServers(s)[i] in ps;
    var j :| 0 <= j < |ps| && ps[j] == ParseServers(s)[i];
    FindAllReported(s, 0, j);
    MatchAtShaped(s, ms[j].start);
    GroupsShaped(s, ms[j]);
  }

  // ---------------------------------------------------------------------------
  // A well-formed server list: `name=host:port` entries joined with `,`.

  datatype ServerEntry = ServerEntry(name: string, host: string, port: string)

  function Address(e: ServerEntry): string {
    e.host + ":" + e.port
  }

  function Segment(e: ServerEntry): string {
    e.name + "=" + Address(e)
  }

  /**
   * A name that cannot start with the commas `,*` consumes and holds no `=`;
   * a host without `:`; a port of digits; every character accepted by `.`.
   */
  ghost predicate WellFormedEntry(e: ServerEntry) {
    && |e.name| > 0 && e.name[0] != ',' && (forall k :: 0 <= k < |e.name| ==> IsDot(e.name[k]) && e.name[k] != '=')
    && |e.host| > 0 && (forall k :: 0 <= k < |e.host| ==> IsDot(e.host[k]) && e.host[k] != ':')
    && |e.port| > 0 && (forall k :: 0 <= k < |e.port| ==> IsDigit(e.port[k]))
  }

  /** The entries, each written `name=host:port`, separated by `,`. */
  function Render(es: seq<ServerEntry>): string {
    if es == [] then "" else Segment(es[0]) + RenderRest(es[1..])
  }

  function RenderRest(es: seq<ServerEntry>): string {
    if es == [] then "" else "," + Segment(es[0]) + RenderRest(es[1..])
  }

  function Pairs(es: seq<ServerEntry>): (ps: seq<(string, string)>)
    ensures |ps| == |es|
    ensures forall i :: 0 <= i < |es| ==> ps[i] == (es[i].name, Address(es[i]))
  {
    seq(|es|, i requires 0 <= i < |es| => (es[i].name, Address(es[i])))
  }

  /** Where each character of an entry sits once it is written at `n`. */
  lemma SegmentChars(s: string, n: nat, e: ServerEntry)
    requires n + |Segment(e)| <= |s| && s[n..n + |Segment(e)|] == Segment(e)
    ensures forall k :: n <= k < n + |e.name| ==> s[k] == e.name[k - n]
    ensures s[n + |e.name|] == '='
    ensures forall k :: n + |e.name| < k < n + |e.name| + 1 + |e.host| ==> s[k] == e.host[k - (n + |e.name| + 1)]
    ensures s[n + |e.name| + 1 + |e.host|] == ':'
    ensures forall k :: n + |e.name| + 1 + |e.host| < k < n + |Segment(e)| ==> s[k] == e.port[k - (n + |e.name| + 2 + |e.host|)]
  {
    var t := Segment(e);
    assert forall k :: n <= k < n + |t| ==> s[k] == t[k - n];
  }

  /** No other way of matching at `p` comes before the entry itself. */
  lemma SegmentFirst(s: string, p: nat, lead: nat, e: ServerEntry, m': Match)
    requires WellFormedEntry(e) && lead <= 1
    requires p + lead + |Segment(e)| <= |s| && s[p + lead..p + lead + |Segment(e)|] == Segment(e)
    requires Shaped(s, m') && m'.start == p
    ensures m'.nameStart <= p + lead
    ensures m'.nameStart == p + lead ==> p + lead + |e.name| <= m'.eq
    ensures m'.nameStart == p + lead && m'.eq == p + lead + |e.name| ==> p + lead + |e.name| + 1 + |e.host| <= m'.colon
  {
    var n := p + lead;
    SegmentChars(s, n, e);
    assert s[n] == e.name[0];
  }

  /** The match an entry written at `p` gives: leading commas, name, `=`, host, `:`, port. */
  function SegmentAt(p: nat, lead: nat, e: ServerEntry): Match {
    var n := p + lead;
    Match(p, n, n + |e.name|, n + |e.name| + 1 + |e.host|, n + |Segment(e)|)
  }

  lemma SegmentShaped(s: string, p: nat, lead: nat, e: ServerEntry)
    requires WellFormedEntry(e) && lead <= 1
    requires p + lead + |Segment(e)| <= |s|
    requires lead == 1 ==> s[p] == ','
    requires s[p + lead..p + lead + |Segment(e)|] == Segment(e)
    requires p + lead + |Segment(e)| == |s| || s[p + lead + |Segment(e)|] == ','
    ensures Shaped(s, SegmentAt(p, lead, e))
  {
    var m := SegmentAt(p, lead, e);
    SegmentChars(s, p + lead, e);
    assert ValueShaped(s, m.eq + 1, m.colon, m.end);
  }

  lemma SegmentGroups(s: string, p: nat, lead: nat, e: ServerEntry)
    requires |e.name| > 0 && |e.host| > 0 && |e.port| > 0
    requires p + lead + |Segment(e)| <= |s|
    requires s[p + lead..p + lead + |Segment(e)|] == Segment(e)
    ensures Groups(s, SegmentAt(p, lead, e)) == (e.name, Address(e))
  {
    var m := SegmentAt(p, lead, e);
    var t := s[p + lead..p + lead + |Segment(e)|];
    assert t[..|e.name|] == e.name;
    assert t[|e.name| + 1..] == Address(e);
    assert s[m.nameStart..m.eq] == t[..|e.name|];
    assert s[m.eq + 1..m.end] == t[|e.name| + 1..];
  }

  /**
   * An entry written at `p`, after at most one `,` and before `,` or the end,
   * is exactly what the engine matches at `p`, with its name and address as
   * the two groups.
   */
  lemma SegmentMatch(s: string, p: nat, lead: nat, e: ServerEntry)
    requires WellFormedEntry(e) && lead <= 1
    requires p + lead + |Segment(e)| <= |s|
    requires lead == 1 ==> s[p] == ','
    requires s[p + lead..p + lead + |Segment(e)|] == Segment(e)
    requires p + lead + |Segment(e)| == |s| || s[p + lead + |Segment(e)|] == ','
    ensures MatchAt(s, p).Some?
    ensures MatchAt(s, p).value.end == p + lead + |Segment(e)|
    ensures Groups(s, MatchAt(s, p).value) == (e.name, Address(e))
  {
    var m := SegmentAt(p, lead, e);
    SegmentShaped(s, p, lead, e);
    SegmentGroups(s, p, lead, e);
    forall m' | Shaped(s, m') && m'.start == p ensures TriedFirst(m, m') {
      SegmentFirst(s, p, lead, e, m');
    }
    MatchAtIff(s, p, m);
  }

  lemma AllGroupsCons(s: string, m: Match, ms: seq<Match>)
    requires InBounds(s, m) && forall j :: 0 <= j < |ms| ==> InBounds(s, ms[j])
    ensures AllGroups(s, [m] + ms) == [Groups(s, m)] + AllGroups(s, ms)
  {
  }

  lemma PairsCons(es: seq<ServerEntry>)
    requires es != []
    ensures Pairs(es) == [(es[0].name, Address(es[0]))] + Pairs(es[1..])
  {
  }

  /** Text `lead` characters long, then a rendered entry, then what follows it. */
  lemma SplitRendered(s: string, p: nat, lead: nat, e: ServerEntry, rest: seq<ServerEntry>)
    requires p + lead <= |s| && s[p + lead..] == Segment(e) + RenderRest(rest)
    ensures p + lead + |Segment(e)| <= |s|
    ensures s[p + lead..p + lead + |Segment(e)|] == Segment(e)
    ensures s[p + lead + |Segment(e)|..] == RenderRest(rest)
    ensures p + lead + |Segment(e)| == |s| || s[p + lead + |Segment(e)|] == ','
  {
    var n := p + lead + |Segment(e)|;
    assert s[p + lead..][..|Segment(e)|] == Segment(e);
    assert s[p + lead..][|Segment(e)|..] == RenderRest(rest);
    if rest != [] {
      assert s[p + lead..][|Segment(e)|] == ',';
    }
  }

  /** The rest of a rendered list, each entry after its `,`, reads back entry by entry. */
  lemma {:induction false} FindAllRendered(s: string, p: nat, es: seq<ServerEntry>)
    requires p <= |s| && s[p..] == RenderRest(es)
    requires forall i :: 0 <= i < |es| ==> WellFormedEntry(es[i])
    ensures AllGroups(s, FindAll(s, p)) == Pairs(es)
    decreases es
  {
    if es == [] {
      assert MatchAt(s, p).None?;
    } else {
      var e := es[0];
      assert s[p] == ',';
      assert s[p + 1..] == s[p..][1..];
      SplitRendered(s, p, 1, e, es[1..]);
      SegmentMatch(s, p, 1, e);
      var m := MatchAt(s, p).value;
      FindAllRendered(s, m.end, es[1..]);
      AllGroupsCons(s, m, FindAll(s, m.end));
      PairsCons(es);
    }
  }

  /** A well-formed list is matched entry by entry, in order. */
  lemma RenderedGroups(es: seq<ServerEntry>)
    requires forall i :: 0 <= i < |es| ==> WellFormedEntry(es[i])
    ensures AllGroups(Render(es), FindAll(Render(es), 0)) == Pairs(es)
  {
    var s := Render(es);
    if es == [] {
      assert MatchAt(s, 0).None?;
    } else {
      var e := es[0];
      assert s[0..] == s;
      SplitRendered(s, 0, 0, e, es[1..]);
      SegmentMatch(s, 0, 0, e);
      var m := MatchAt(s, 0).value;
      FindAllRendered(s, m.end, es[1..]);
      AllGroupsCons(s, m, FindAll(s, m.end));
      PairsCons(es);
    }
  }

  /** A well-formed list parses to its entries, associated in order. */
  lemma ParseServersRendered(es: seq<ServerEntry>)
    requires forall i :: 0 <= i < |es| ==> WellFormedEntry(es[i])
    ensures ParseServers(Render(es)) == Associate(Pairs(es))
  {
    RenderedGroups(es);
  }

  /** In a well-formed list each name gets the address of its last entry. */
  lemma ParseServersLastWins(es: seq<ServerEntry>, j: nat)
    requires forall i :: 0 <= i < |es| ==> WellFormedEntry(es[i])
    requires j < |es| && forall j' :: j < j' < |es| ==> es[j'].name != es[j].name
    ensures Lookup(ParseServers(Render(es)), es[j].name) == Some(Address(es[j]))
  {
    ParseServersRendered(es);
    AssociateLastWins(Pairs(es), j);
  }

  /** A name no entry of a well-formed list carries is absent from the map. */
  lemma ParseServersAbsent(es: seq<ServerEntry>, name: string)
    requires forall i :: 0 <= i < |es| ==> WellFormedEntry(es[i])
    requires forall i :: 0 <= i < |es| ==> es[i].name != name
    ensures Lookup(ParseServers(Render(es)), name) == None
  {
    ParseServersRendered(es);
    AssociateAbsent(Pairs(es), name);
  }
}
