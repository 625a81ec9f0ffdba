/**
 * `parseForcedHosts`: split the flag text on `,`, split each segment on `=`,
 * and associate piece 0 (the virtual host) with piece 1 split on `+` (the
 * servers to try for it). Pieces after the second are ignored, and a segment
 * without `=` has no piece 1, which makes the whole call fail: the first such
 * segment is reported as `MissingEquals` with its position.
 */
module ForcedHosts {
  import opened Wrappers
  import opened AssocLists
  import Strings

  datatype ForcedHostsError = MissingEquals(segment: nat)

  type ForcedHostMap = AssocList<string, seq<string>>

  /** Piece 0 of a segment's `=`-split: the virtual host. */
  function Host(seg: string): string {
    Strings.Split(seg, '=')[0]
  }

  /** Piece 1 of a segment's `=`-split split on `+`: the servers, in order. */
  function Servers(seg: string): seq<string>
    requires '=' in seg
  {
    Strings.SplitMany(seg, '=');
    Strings.Split(Strings.Split(seg, '=')[1], '+')
  }

  /** One `,`-segment: its host and servers, or nothing when it has no `=`. */
  function Entry(seg: string): (r: Option<(string, seq<string>)>)
    ensures r.None? <==> '=' !in seg
  {
    Strings.SplitMany(seg, '=');
    var pieces := Strings.Split(seg, '=');
    if |pieces| < 2 then None else Some((pieces[0], Strings.Split(pieces[1], '+')))
  }

  /** The segments' entries in order, or the position of the first segment without `=`. */
  function Entries(segs: seq<string>): (r: Result<seq<(string, seq<string>)>, ForcedHostsError>)
    ensures r.Success? ==> |r.value| == |segs|
    ensures r.Failure? ==> r.error.segment < |segs|
  {
    if segs == [] then Success([])
    else match Entry(segs[0])
      case None => Failure(MissingEquals(0))
      case Some(p) =>
        match Entries(segs[1..])
        case Success(ps) => Success([p] + ps)
        case Failure(MissingEquals(i)) => Failure(MissingEquals(i + 1))
  }

  /** `parseForcedHosts`: a map with each host once, or the `,`-segment that has no `=`. */
  function ParseForcedHosts(s: string): (r: Result<ForcedHostMap, ForcedHostsError>)
    ensures r.Success? ==> UniqueKeys(r.value)
    ensures r.Failure? ==> r.error.segment < |Strings.Split(s, ',')|
  {
    match Entries(Strings.Split(s, ','))
    case Success(ps) => Success(Associate(ps))
    case Failure(e) => Failure(e)
  }

  // ---------------------------------------------------------------------------
  // Segments.

  /** The host is the text before the first `=`, piece 1 the text from there to the next `=`. */
  lemma HostAndPiece(seg: string)
    requires '=' in seg
    ensures Host(seg) == seg[..Strings.FirstIndex(seg, '=')]
    ensures Strings.Split(seg, '=')[1]
         == Strings.Split(seg[Strings.FirstIndex(seg, '=') + 1..], '=')[0]
    ensures Strings.Split(seg, '=')[1]
         == seg[Strings.FirstIndex(seg, '=') + 1..][..Strings.FirstIndex(seg[Strings.FirstIndex(seg, '=') + 1..], '=')]
  {
    var i := Strings.FirstIndex(seg, '=');
    Strings.SplitFirst(seg, '=');
    Strings.SplitFirst(seg[i + 1..], '=');
  }

  /** A server list is never empty, holds no `+`, and joins back to piece 1. */
  lemma ServersSpec(seg: string)
    requires '=' in seg
    ensures |Servers(seg)| >= 1
    ensures forall k :: 0 <= k < |Servers(seg)| ==> '+' !in Servers(seg)[k]
    ensures Strings.Join(Servers(seg), '+') == Strings.Split(seg, '=')[1]
  {
    Strings.SplitMany(seg, '=');
    Strings.JoinSplit(Strings.Split(seg, '=')[1], '+');
  }

  /**
   * The entries fail exactly at the first segment without `=`; otherwise
   * entry `j` is segment `j`'s host and servers.
   */
  lemma {:induction false} EntriesSpec(segs: seq<string>)
    ensures Entries(segs).Failure? ==>
      && '=' !in segs[Entries(segs).error.segment]
      && forall j :: 0 <= j < Entries(segs).error.segment ==> '=' in segs[j]
    ensures Entries(segs).Success? ==>
      forall j :: 0 <= j < |segs| ==> '=' in segs[j] && Entries(segs).value[j] == (Host(segs[j]), Servers(segs[j]))
  {
    if segs != [] && Entry(segs[0]).Some? {
      EntriesSpec(segs[1..]);
      var r := Entries(segs);
      if r.Failure? {
        forall j | 0 <= j < r.error.segment ensures '=' in segs[j] {
          if j > 0 {
            assert segs[j] == segs[1..][j - 1];
          }
        }
      } else {
        forall j | 0 <= j < |segs| ensures '=' in segs[j] && r.value[j] == (Host(segs[j]), Servers(segs[j])) {
          if j > 0 {
            assert segs[j] == segs[1..][j - 1];
          }
        }
      }
    }
  }

  // ---------------------------------------------------------------------------
  // What `parseForcedHosts` returns.

  /**
   * The call fails exactly when some `,`-segment has no `=`, and it then
   * names the first such segment.
   */
  lemma ParseForcedHostsFailure(s: string)
    ensures ParseForcedHosts(s).Failure? <==> exists j :: 0 <= j < |Strings.Split(s, ',')| && '=' !in Strings.Split(s, ',')[j]
    ensures ParseForcedHosts(s).Failure? ==>
      && ParseForcedHosts(s).error.segment < |Strings.Split(s, ',')|
      && '=' !in Strings.Split(s, ',')[ParseForcedHosts(s).error.segment]
      && forall j :: 0 <= j < ParseForcedHosts(s).error.segment ==> '=' in Strings.Split(s, ',')[j]
  {
    EntriesSpec(Strings.Split(s, ','));
  }

  /** An empty segment has no `=`, so the call fails. */
  lemma EmptySegmentFails(s: string)
    requires "" in Strings.Split(s, ',')
    ensures ParseForcedHosts(s).Failure?
  {
    var segs := Strings.Split(s, ',');
    var j :| 0 <= j < |segs| && segs[j] == "";
    ParseForcedHostsFailure(s);
  }

  /** The empty flag fails at its only segment. */
  lemma ParseForcedHostsEmpty()
    ensures ParseForcedHosts("") == Failure(MissingEquals(0))
  {
    assert Strings.Split("", ',') == [""];
  }

  /** A trailing `,` leaves an empty last segment, so the call fails. */
  lemma TrailingCommaFails(s: string)
    requires |s| >= 1 && s[|s| - 1] == ','
    ensures ParseForcedHosts(s).Failure?
  {
    Strings.SplitTrailing(s, ',');
    EmptySegmentFails(s);
  }

  /** A leading `,` or a doubled `,,` leaves an empty segment, so the call fails. */
  lemma EmptyBetweenCommasFails(s: string, k: nat)
    requires k < |s| && s[k] == ','
    requires k == 0 || s[k - 1] == ','
    ensures ParseForcedHosts(s).Failure?
  {
    Strings.SplitEmptyPiece(s, ',', k);
    EmptySegmentFails(s);
  }

  /** A host gets the servers of the last segment that names it. */
  lemma ParseForcedHostsLastWins(s: string, j: nat)
    requires ParseForcedHosts(s).Success?
    requires j < |Strings.Split(s, ',')|
    requires forall j' :: j < j' < |Strings.Split(s, ',')| ==> Host(Strings.Split(s, ',')[j']) != Host(Strings.Split(s, ',')[j])
    ensures '=' in Strings.Split(s, ',')[j]
    ensures Lookup(ParseForcedHosts(s).value, Host(Strings.Split(s, ',')[j])) == Some(Servers(Strings.Split(s, ',')[j]))
  {
    var segs := Strings.Split(s, ',');
    EntriesSpec(segs);
    var ps := Entries(segs).value;
    AssociateLastWins(ps, j);
  }

  /** A host no segment names is absent. */
  lemma ParseForcedHostsAbsent(s: string, h: string)
    requires ParseForcedHosts(s).Success?
    requires forall j :: 0 <= j < |Strings.Split(s, ',')| ==> Host(Strings.Split(s, ',')[j]) != h
    ensures Lookup(ParseForcedHosts(s).value, h) == None
  {
    var segs := Strings.Split(s, ',');
    EntriesSpec(segs);
    AssociateAbsent(Entries(segs).value, h);
  }

  /** Hosts are listed once each, in the order they first appear among the segments. */
  lemma ParseForcedHostsOrder(s: string)
    requires ParseForcedHosts(s).Success?
    ensures UniqueKeys(ParseForcedHosts(s).value)
    ensures InFirstOccurrenceOrder(Keys(ParseForcedHosts(s).value), Keys(Entries(Strings.Split(s, ',')).value))
  {
    AssociateKeyOrder(Entries(Strings.Split(s, ',')).value);
  }

  /**
   * Every entry comes from a segment with `=`: its key is that segment's host,
   * and its servers are non-empty, free of `+`, and join with `+` to the
   * segment's piece 1.
   */
  lemma ParseForcedHostsValues(s: string, i: nat)
    requires ParseForcedHosts(s).Success? && i < |ParseForcedHosts(s).value|
    ensures exists j :: 0 <= j < |Strings.Split(s, ',')| && FromSegment(Strings.Split(s, ',')[j], ParseForcedHosts(s).value[i])
  {
    var segs := Strings.Split(s, ',');
    EntriesSpec(segs);
    var ps := Entries(segs).value;
    var entry := ParseForcedHosts(s).value[i];
    assert entry in ps;
    var j :| 0 <= j < |ps| && ps[j] == entry;
    ServersSpec(segs[j]);
    assert FromSegment(segs[j], entry);
  }

  ghost predicate FromSegment(seg: string, entry: (string, seq<string>)) {
    && '=' in seg
    && entry.0 == Host(seg)
    && |entry.1| >= 1
    && (forall k :: 0 <= k < |entry.1| ==> '+' !in entry.1[k])
    && Strings.Join(entry.1, '+') == Strings.Split(seg, '=')[1]
  }

  // ---------------------------------------------------------------------------
  // A well-formed flag: `host=server+server,...`.

  /** A host free of `,` and `=`; at least one server, each free of `,`, `=` and `+`. */
  ghost predicate WellFormedEntry(e: (string, seq<string>)) {
    && ',' !in e.0 && '=' !in e.0
    && |e.1| >= 1
    && forall k :: 0 <= k < |e.1| ==> ',' !in e.1[k] && '=' !in e.1[k] && '+' !in e.1[k]
  }

  function RenderEntry(e: (string, seq<string>)): string {
    e.0 + "=" + Strings.Join(e.1, '+')
  }

  function RenderSegments(es: seq<(string, seq<string>)>): (segs: seq<string>)
    ensures |segs| == |es|
    ensures forall i :: 0 <= i < |es| ==> segs[i] == RenderEntry(es[i])
  {
    seq(|es|, i requires 0 <= i < |es| => RenderEntry(es[i]))
  }

  /** The entries, each written `host=server+server`, separated by `,`. */
  function Render(es: seq<(string, seq<string>)>): string {
    Strings.Join(RenderSegments(es), ',')
  }

  lemma JoinFree(parts: seq<string>, c: char, x: char)
    requires x != c && forall k :: 0 <= k < |parts| ==> x !in parts[k]
    ensures x !in Strings.Join(parts, c)
    decreases |parts|
  {
    if |parts| > 1 {
      JoinFree(parts[1..], c, x);
    }
  }

  lemma RenderEntrySplit(e: (string, seq<string>))
    requires WellFormedEntry(e)
    ensures ',' !in RenderEntry(e)
    ensures Strings.Split(RenderEntry(e), '=') == [e.0, Strings.Join(e.1, '+')]
    ensures Entry(RenderEntry(e)) == Some(e)
  {
    JoinFree(e.1, '+', ',');
    JoinFree(e.1, '+', '=');
    assert RenderEntry(e) == Strings.Join([e.0, Strings.Join(e.1, '+')], '=');
    Strings.SplitJoin([e.0, Strings.Join(e.1, '+')], '=');
    Strings.SplitJoin(e.1, '+');
  }

  lemma {:induction false} EntriesRendered(es: seq<(string, seq<string>)>)
    requires forall i :: 0 <= i < |es| ==> WellFormedEntry(es[i])
    ensures Entries(RenderSegments(es)) == Success(es)
    decreases |es|
  {
    var segs := RenderSegments(es);
    if es != [] {
      RenderEntrySplit(es[0]);
      assert segs[1..] == RenderSegments(es[1..]);
      EntriesRendered(es[1..]);
      assert Entry(segs[0]) == Some(es[0]);
      assert [es[0]] + es[1..] == es;
    }
  }

  /** A non-empty well-formed list reads back as its entries, associated in order. */
  lemma ParseForcedHostsRendered(es: seq<(string, seq<string>)>)
    requires |es| >= 1 && forall i :: 0 <= i < |es| ==> WellFormedEntry(es[i])
    ensures ParseForcedHosts(Render(es)) == Success(Associate(es))
  {
    forall i | 0 <= i < |es| ensures ',' !in RenderSegments(es)[i] {
      RenderEntrySplit(es[i]);
    }
    Strings.SplitJoin(RenderSegments(es), ',');
    EntriesRendered(es);
  }
}
