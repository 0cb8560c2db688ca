/**
 * Preflight: the observed flows a draft policy would block, grouped by peer,
 * port and protocol, in a stable order, and cut to the busiest ones.
 */
module Preflight {
  import opened Wrappers
  import opened Strings
  import Pce
  import LabelText

  type LabelMap = map<string, string>

  const DECISION_ALLOWED := "allowed"
  const DECISION_POTENTIALLY_BLOCKED := "potentially_blocked"
  const DECISION_BLOCKED := "blocked"

  datatype Direction = Inbound | Outbound

  datatype Flow = Flow(
    srcLabels: LabelMap, dstLabels: LabelMap, srcIp: string, dstIp: string,
    port: int, protocol: int, draftDecision: string, connections: int, lastDetected: int)

  datatype Finding = Finding(
    peer: LabelMap, peerIp: string, port: int, protocol: string,
    connections: int, decision: string, lastDetected: int)

  datatype DecisionCounts = DecisionCounts(
    total: nat, allowed: nat, potentiallyBlocked: nat, blocked: nat, unknown: nat)

  function ProtoName(proto: int): string {
    if proto == 6 then "TCP" else if proto == 17 then "UDP" else Decimal(proto)
  }

  /** The two protocols with a name; any other shows as its number in decimal. */
  lemma ProtoNames(proto: nat)
    ensures ProtoName(6) == "TCP" && ProtoName(17) == "UDP"
    ensures proto != 6 && proto != 17 ==> Numeral(ProtoName(proto)) && ValueOf(ProtoName(proto)) == proto
  {
    DigitsValue(proto);
  }

  lemma ProtoNameInjective(p: int, q: int)
    requires ProtoName(p) == ProtoName(q)
    ensures p == q
  {
    DigitsValue(if p < 0 then -p else p);
    DigitsValue(if q < 0 then -q else q);
    assert Decimal(p)[0] != 'T' && Decimal(p)[0] != 'U' && Decimal(q)[0] != 'T' && Decimal(q)[0] != 'U';
    if p != 6 && p != 17 && q != 6 && q != 17 {
      DecimalInjective(p, q);
    }
  }

  // ----- The identity of a peer -----

  function Piece(k: string, v: string): string {
    k + "=" + v + ";"
  }

  function Rendered(keys: seq<string>, labels: LabelMap): string
    requires forall k :: k in keys ==> k in labels
  {
    if keys == [] then ""
    else Rendered(keys[..|keys| - 1], labels) + Piece(keys[|keys| - 1], labels[keys[|keys| - 1]])
  }

  /** The labels in key order, or the address of a peer without labels. */
  function PeerKeyOf(labels: LabelMap, ip: string): string {
    if labels == map[] then "ip:" + ip
    else
      ListingLists(labels.Keys);
      Rendered(Listing(labels.Keys), labels)
  }

  method SortedKeys(labels: LabelMap) returns (sorted: seq<string>)
    ensures sorted == Listing(labels.Keys)
  {
    var keys: seq<string> := [];
    var todo := labels.Keys;
    while todo != {}
      invariant todo <= labels.Keys
      invariant Lists(keys, labels.Keys - todo)
      decreases |todo|
    {
      var k :| k in todo;
      ListsAppend(keys, labels.Keys - todo, k);
      assert labels.Keys - (todo - {k}) == (labels.Keys - todo) + {k};
      keys := keys + [k];
      todo := todo - {k};
    }
    assert labels.Keys - todo == labels.Keys;
    AtMostPreorder();
    sorted := Sort(keys, AtMost);
    ListsRearranged(keys, sorted, labels.Keys);
    SortedListingIsUnique(sorted, labels.Keys);
  }

  method PeerKey(labels: LabelMap, ip: string) returns (key: string)
    ensures key == PeerKeyOf(labels, ip)
  {
    if |labels| == 0 {
      return "ip:" + ip;
    }
    var sorted := SortedKeys(labels);
    ListingLists(labels.Keys);
    key := "";
    for i := 0 to |sorted|
      invariant key == Rendered(sorted[..i], labels)
    {
      assert sorted[..i + 1][..i] == sorted[..i];
      assert key + Piece(sorted[i], labels[sorted[i]]) == key + sorted[i] + "=" + labels[sorted[i]] + ";";
      key := key + sorted[i] + "=" + labels[sorted[i]] + ";";
    }
    assert sorted[..|sorted|] == sorted;
  }

  /** A key, its value and the text after them can be told apart. */
  lemma HeadInjective(k: string, v: string, rest: string, j: string, w: string, tail: string)
    requires '=' !in k && '=' !in j && ';' !in v && ';' !in w
    requires k + "=" + v + ";" + rest == j + "=" + w + ";" + tail
    ensures k == j && v == w && rest == tail
  {
    var a, b := v + ";" + rest, w + ";" + tail;
    assert k + "=" + v + ";" + rest == LabelText.Joined(Pce.Label(k, a), '=');
    assert j + "=" + w + ";" + tail == LabelText.Joined(Pce.Label(j, b), '=');
    LabelText.JoinedInjective(Pce.Label(k, a), Pce.Label(j, b), '=');
    assert a == LabelText.Joined(Pce.Label(v, rest), ';') && b == LabelText.Joined(Pce.Label(w, tail), ';');
    LabelText.JoinedInjective(Pce.Label(v, rest), Pce.Label(w, tail), ';');
  }

  lemma {:induction false} RenderedFront(k: string, keys: seq<string>, labels: LabelMap)
    requires k in labels && forall j :: j in keys ==> j in labels
    ensures Rendered([k] + keys, labels) == Piece(k, labels[k]) + Rendered(keys, labels)
  {
    hide Piece;
    var all := [k] + keys;
    if keys == [] {
      assert all[..0] == [] && Rendered(all[..0], labels) == "";
    } else {
      var n := |keys| - 1;
      assert all[..n + 1] == [k] + keys[..n];
      RenderedFront(k, keys[..n], labels);
    }
  }

  /** Keys without '=' and values without ';' can be read back from the text. */
  predicate Readable(labels: LabelMap) {
    forall k :: k in labels ==> '=' !in k && ';' !in labels[k]
  }

  lemma {:induction false} RenderedInjective(keys: seq<string>, l: LabelMap, others: seq<string>, m: LabelMap)
    requires (forall k :: k in keys ==> k in l) && (forall k :: k in others ==> k in m)
    requires Readable(l) && Readable(m) && Rendered(keys, l) == Rendered(others, m)
    ensures keys == others && forall k :: k in keys ==> l[k] == m[k]
    decreases |keys|
  {
    if keys != [] && others != [] {
      var k, j := keys[0], others[0];
      var rest, tail := keys[1..], others[1..];
      assert keys == [k] + rest && others == [j] + tail;
      RenderedFront(k, rest, l);
      RenderedFront(j, tail, m);
      HeadInjective(k, l[k], Rendered(rest, l), j, m[j], Rendered(tail, m));
      RenderedInjective(rest, l, tail, m);
    }
  }

  /** A peer's key tells peers apart: by labels when it has any, by address otherwise. */
  lemma PeerKeyFaithful(l: LabelMap, ip: string, m: LabelMap, jp: string)
    requires Readable(l) && Readable(m) && ';' !in ip && ';' !in jp
    requires PeerKeyOf(l, ip) == PeerKeyOf(m, jp)
    ensures l == m && (l == map[] ==> ip == jp)
  {
    ListingLists(l.Keys);
    ListingLists(m.Keys);
    if l == map[] && m == map[] {
      assert PeerKeyOf(l, ip)[3..] == ip && PeerKeyOf(m, jp)[3..] == jp;
    } else if l == map[] || m == map[] {
      LabelKeyHasSemicolon(l, ip);
      LabelKeyHasSemicolon(m, jp);
    } else {
      RenderedInjective(Listing(l.Keys), l, Listing(m.Keys), m);
      assert l.Keys == m.Keys by {
        assert forall k :: k in l.Keys <==> k in m.Keys;
      }
    }
  }

  lemma LabelKeyHasSemicolon(labels: LabelMap, ip: string)
    ensures labels != map[] ==> ';' in PeerKeyOf(labels, ip)
    ensures labels == map[] && ';' !in ip ==> ';' !in PeerKeyOf(labels, ip)
  {
    if labels != map[] {
      ListingLists(labels.Keys);
      var k :| k in labels;
      assert k in Listing(labels.Keys);
      var text := PeerKeyOf(labels, ip);
      assert text[|text| - 1] == ';';
    }
  }

  /** Each limit is needed.  Every label key with a '=' in it shares its peer key with another label. */
  lemma EqualsInKeyCollides(a: string, b: string, c: string, ip: string, jp: string)
    ensures map[a + "=" + b := c] != map[a := b + "=" + c]
    ensures PeerKeyOf(map[a + "=" + b := c], ip) == PeerKeyOf(map[a := b + "=" + c], jp)
  {
    SingleKey(a + "=" + b, c, ip);
    SingleKey(a, b + "=" + c, jp);
    assert (a + "=" + b) + "=" + c + ";" == a + "=" + (b + "=" + c) + ";";
    assert |a + "=" + b| > |a|;
    assert a + "=" + b !in map[a := b + "=" + c];
  }

  /** Every label value that spells out a further label, with a later key, after a ';'. */
  lemma {:induction false} SemicolonInValueCollides(j: string, v: string, k: string, w: string, ip: string, jp: string)
    requires Less(j, k)
    ensures map[j := v + ";" + k + "=" + w] != map[j := v, k := w]
    ensures PeerKeyOf(map[j := v + ";" + k + "=" + w], ip) == PeerKeyOf(map[j := v, k := w], jp)
  {
    SingleKey(j, v + ";" + k + "=" + w, ip);
    TwoKeys(j, v, k, w, jp);
    assert j + "=" + (v + ";" + k + "=" + w) + ";" == j + "=" + v + ";" + k + "=" + w + ";";
    LessAsymmetric(j, k);
    assert k in map[j := v, k := w] && k !in map[j := v + ";" + k + "=" + w];
  }

  /** Every address that reads like a label value and ends in ';'. */
  lemma SemicolonInAddressCollides(a: string, b: string, ip: string)
    ensures PeerKeyOf(map["ip:" + a := b], ip) == PeerKeyOf(map[], a + "=" + b + ";")
  {
    SingleKey("ip:" + a, b, ip);
    assert ("ip:" + a) + "=" + b + ";" == "ip:" + (a + "=" + b + ";");
  }

  lemma {:induction false} TwoKeysListed(j: string, k: string)
    requires Less(j, k)
    ensures Listing({j, k}) == [j, k]
  {
    LessAsymmetric(j, k);
    var keys := [j, k];
    assert forall x :: x in keys <==> x == j || x == k;
    SortedListingIsUnique(keys, {j, k});
  }

  lemma {:induction false} TwoKeys(j: string, v: string, k: string, w: string, ip: string)
    requires Less(j, k)
    ensures PeerKeyOf(map[j := v, k := w], ip) == j + "=" + v + ";" + k + "=" + w + ";"
  {
    hide Less, Listing;
    var m := map[j := v, k := w];
    assert m.Keys == {j, k};
    LessAsymmetric(j, k);
    TwoKeysListed(j, k);
    assert [j, k] == [j] + [k] && [k] == [k] + [];
    RenderedFront(j, [k], m);
    RenderedFront(k, [], m);
    assert Piece(j, v) + (Piece(k, w) + "") == j + "=" + v + ";" + k + "=" + w + ";";
  }

  lemma SingleKey(k: string, v: string, ip: string)
    ensures PeerKeyOf(map[k := v], ip) == k + "=" + v + ";"
  {
    var m := map[k := v];
    assert m.Keys == {k};
    assert Lists([k], m.Keys);
    SortedListingIsUnique([k], m.Keys);
    RenderedFront(k, [], m);
    assert [k] + [] == [k];
  }

  // ----- Grouping -----

  datatype Key = Key(peer: string, port: int, proto: int)

  predicate DraftBlocked(decision: string) {
    decision == DECISION_BLOCKED || decision == DECISION_POTENTIALLY_BLOCKED
  }

  /** Inbound the peer is the source of the flow, outbound its destination. */
  function PeerOf(f: Flow, d: Direction): (LabelMap, string) {
    if d == Inbound then (f.srcLabels, f.srcIp) else (f.dstLabels, f.dstIp)
  }

  function KeyOf(f: Flow, d: Direction): Key {
    Key(PeerKeyOf(PeerOf(f, d).0, PeerOf(f, d).1), f.port, f.protocol)
  }

  function FindingOf(f: Flow, d: Direction): Finding {
    Finding(PeerOf(f, d).0, PeerOf(f, d).1, f.port, ProtoName(f.protocol), f.connections, f.draftDecision, f.lastDetected)
  }

  predicate InGroup(f: Flow, d: Direction, k: Key) {
    DraftBlocked(f.draftDecision) && KeyOf(f, d) == k
  }

  /** The specification: one group per key of a blocked flow. */
  function Keys(flows: seq<Flow>, d: Direction): set<Key> {
    set f | f in flows && DraftBlocked(f.draftDecision) :: KeyOf(f, d)
  }

  /** The connections of a group, added up. */
  function Total(flows: seq<Flow>, d: Direction, k: Key): int {
    if flows == [] then 0
    else
      var f := flows[|flows| - 1];
      Total(flows[..|flows| - 1], d, k) + if InGroup(f, d, k) then f.connections else 0
  }

  /** A group is described by the first of its flows. */
  function First(flows: seq<Flow>, d: Direction, k: Key): (f: Flow)
    requires k in Keys(flows, d)
    ensures InGroup(f, d, k)
  {
    if InGroup(flows[0], d, k) then flows[0]
    else
      assert flows == [flows[0]] + flows[1..];
      First(flows[1..], d, k)
  }

  /** No earlier flow is of this group. */
  lemma {:induction false} FirstIsFirst(flows: seq<Flow>, d: Direction, k: Key) returns (i: nat)
    requires k in Keys(flows, d)
    ensures i < |flows| && flows[i] == First(flows, d, k) && forall j :: 0 <= j < i ==> !InGroup(flows[j], d, k)
  {
    if InGroup(flows[0], d, k) {
      i := 0;
    } else {
      assert flows == [flows[0]] + flows[1..];
      var m := FirstIsFirst(flows[1..], d, k);
      i := m + 1;
    }
  }

  function Summary(flows: seq<Flow>, d: Direction, k: Key): Finding
    requires k in Keys(flows, d)
  {
    FindingOf(First(flows, d, k), d).(connections := Total(flows, d, k))
  }

  lemma KeysMore(flows: seq<Flow>, f: Flow, d: Direction)
    ensures Keys(flows + [f], d) == Keys(flows, d) + if DraftBlocked(f.draftDecision) then {KeyOf(f, d)} else {}
  {
    assert forall g :: g in flows + [f] <==> g in flows || g == f;
  }

  lemma {:induction false} FirstMore(flows: seq<Flow>, f: Flow, d: Direction, k: Key)
    requires k in Keys(flows + [f], d)
    ensures k in Keys(flows, d) ==> First(flows + [f], d, k) == First(flows, d, k)
    ensures k !in Keys(flows, d) ==> First(flows + [f], d, k) == f
  {
    KeysMore(flows, f, d);
    if flows == [] {
    } else {
      assert (flows + [f])[1..] == flows[1..] + [f];
      assert flows == [flows[0]] + flows[1..];
      if !InGroup(flows[0], d, k) {
        KeysMore(flows[1..], f, d);
        FirstMore(flows[1..], f, d, k);
      }
    }
  }

  lemma {:induction false} TotalWithoutGroup(flows: seq<Flow>, d: Direction, k: Key)
    requires k !in Keys(flows, d)
    ensures Total(flows, d, k) == 0
  {
    if flows != [] {
      var n := |flows| - 1;
      assert flows == flows[..n] + [flows[n]];
      KeysMore(flows[..n], flows[n], d);
      TotalWithoutGroup(flows[..n], d, k);
    }
  }

  lemma SummaryMore(flows: seq<Flow>, f: Flow, d: Direction, k: Key)
    requires k in Keys(flows + [f], d)
    ensures k in Keys(flows, d) && InGroup(f, d, k) ==>
      Summary(flows + [f], d, k) == Summary(flows, d, k).(connections := Summary(flows, d, k).connections + f.connections)
    ensures k in Keys(flows, d) && !InGroup(f, d, k) ==> Summary(flows + [f], d, k) == Summary(flows, d, k)
    ensures k !in Keys(flows, d) ==> Summary(flows + [f], d, k) == FindingOf(f, d)
  {
    assert (flows + [f])[..|flows|] == flows;
    KeysMore(flows, f, d);
    FirstMore(flows, f, d, k);
    if k !in Keys(flows, d) {
      TotalWithoutGroup(flows, d, k);
    }
  }

  ghost predicate Grouped(flows: seq<Flow>, d: Direction, order: seq<Key>, seen: map<Key, Finding>) {
    && Lists(order, Keys(flows, d)) && seen.Keys == Keys(flows, d)
    && forall k :: k in seen ==> seen[k] == Summary(flows, d, k)
  }

  lemma FlowSkipped(flows: seq<Flow>, f: Flow, d: Direction, order: seq<Key>, seen: map<Key, Finding>)
    requires Grouped(flows, d, order, seen) && !DraftBlocked(f.draftDecision)
    ensures Grouped(flows + [f], d, order, seen)
  {
    hide Summary, Lists;
    KeysMore(flows, f, d);
    assert Keys(flows + [f], d) == Keys(flows, d);
    forall k | k in seen ensures seen[k] == Summary(flows + [f], d, k) {
      SummaryMore(flows, f, d, k);
    }
  }

  lemma FlowAdded(flows: seq<Flow>, f: Flow, d: Direction, order: seq<Key>, seen: map<Key, Finding>)
    requires Grouped(flows, d, order, seen) && DraftBlocked(f.draftDecision) && KeyOf(f, d) in seen
    ensures var k := KeyOf(f, d);
      Grouped(flows + [f], d, order, seen[k := seen[k].(connections := seen[k].connections + f.connections)])
  {
    hide Summary, Lists;
    KeysMore(flows, f, d);
    assert Keys(flows + [f], d) == Keys(flows, d);
    forall k | k in seen
      ensures InGroup(f, d, k) ==>
        Summary(flows + [f], d, k) == Summary(flows, d, k).(connections := Summary(flows, d, k).connections + f.connections)
      ensures !InGroup(f, d, k) ==> Summary(flows + [f], d, k) == Summary(flows, d, k)
    {
      SummaryMore(flows, f, d, k);
    }
  }

  lemma GroupOpened(flows: seq<Flow>, f: Flow, d: Direction, order: seq<Key>, seen: map<Key, Finding>)
    requires Grouped(flows, d, order, seen) && DraftBlocked(f.draftDecision) && KeyOf(f, d) !in seen
    ensures Grouped(flows + [f], d, order + [KeyOf(f, d)], seen[KeyOf(f, d) := FindingOf(f, d)])
  {
    hide Summary, Lists, FindingOf;
    KeysMore(flows, f, d);
    ListsAppend(order, Keys(flows, d), KeyOf(f, d));
    SummaryMore(flows, f, d, KeyOf(f, d));
    forall k | k in seen ensures Summary(flows + [f], d, k) == Summary(flows, d, k) {
      SummaryMore(flows, f, d, k);
    }
  }

  lemma NothingGrouped(d: Direction)
    ensures Grouped([], d, [], map[])
  {
  }

  method GroupFlows(flows: seq<Flow>, d: Direction) returns (order: seq<Key>, seen: map<Key, Finding>)
    ensures Grouped(flows, d, order, seen)
  {
    hide Grouped;
    order, seen := [], map[];
    NothingGrouped(d);
    for i := 0 to |flows|
      invariant Grouped(flows[..i], d, order, seen)
    {
      var f := flows[i];
      assert flows[..i + 1] == flows[..i] + [f];
      if !DraftBlocked(f.draftDecision) {
        FlowSkipped(flows[..i], f, d, order, seen);
        continue;
      }
      var peer, peerIp := PeerOf(f, d).0, PeerOf(f, d).1;
      var text := PeerKey(peer, peerIp);
      var k := Key(text, f.port, f.protocol);
      if k in seen {
        FlowAdded(flows[..i], f, d, order, seen);
        seen := seen[k := seen[k].(connections := seen[k].connections + f.connections)];
        continue;
      }
      GroupOpened(flows[..i], f, d, order, seen);
      seen := seen[k := Finding(peer, peerIp, f.port, ProtoName(f.protocol), f.connections, f.draftDecision, f.lastDetected)];
      order := order + [k];
    }
    assert flows[..|flows|] == flows;
  }

  // ----- Sorting -----

  /** Peer key, then port, then protocol name. */
  predicate NotAfter(a: Finding, b: Finding) {
    var x, y := PeerKeyOf(a.peer, a.peerIp), PeerKeyOf(b.peer, b.peerIp);
    Less(x, y) || (x == y && (a.port < b.port || (a.port == b.port && AtMost(a.protocol, b.protocol))))
  }

  predicate Precedes(a: Finding, b: Finding) {
    var x, y := PeerKeyOf(a.peer, a.peerIp), PeerKeyOf(b.peer, b.peerIp);
    Less(x, y) || (x == y && (a.port < b.port || (a.port == b.port && Less(a.protocol, b.protocol))))
  }

  lemma NotAfterPreorder()
    ensures Preorder(NotAfter)
  {
    hide PeerKeyOf, Less;
    forall a, b ensures NotAfter(a, b) || NotAfter(b, a) {
      LessTotal(PeerKeyOf(a.peer, a.peerIp), PeerKeyOf(b.peer, b.peerIp));
      LessTotal(a.protocol, b.protocol);
    }
    forall a, b, c | NotAfter(a, b) && NotAfter(b, c) ensures NotAfter(a, c) {
      var x, y, z := PeerKeyOf(a.peer, a.peerIp), PeerKeyOf(b.peer, b.peerIp), PeerKeyOf(c.peer, c.peerIp);
      if Less(x, y) && Less(y, z) {
        LessTransitive(x, y, z);
      } else if x == y == z && a.port == b.port == c.port {
        AtMostTransitive(a.protocol, b.protocol, c.protocol);
      }
    }
  }

  function Summaries(flows: seq<Flow>, d: Direction): set<Finding> {
    set k | k in Keys(flows, d) :: Summary(flows, d, k)
  }

  /** A summary's place in the order gives its group away, since protocol names are injective. */
  lemma SummaryTellsKey(flows: seq<Flow>, d: Direction, k: Key, l: Key)
    requires k in Keys(flows, d) && l in Keys(flows, d)
    requires NotAfter(Summary(flows, d, k), Summary(flows, d, l))
    ensures k == l || Precedes(Summary(flows, d, k), Summary(flows, d, l))
  {
    hide PeerKeyOf, Less;
    var a, b := Summary(flows, d, k), Summary(flows, d, l);
    if !Precedes(a, b) {
      ProtoNameInjective(k.proto, l.proto);
    }
  }

  /** The flow is blocked in the draft. */
  predicate BlockedFlow(f: Flow) {
    f.draftDecision == "blocked" || f.draftDecision == "potentially_blocked"
  }

  /** Both flows have the same source, as far as peers are told apart, port and protocol. */
  predicate SameSource(f: Flow, g: Flow) {
    PeerKeyOf(f.srcLabels, f.srcIp) == PeerKeyOf(g.srcLabels, g.srcIp) && f.port == g.port && f.protocol == g.protocol
  }

  predicate SameDestination(f: Flow, g: Flow) {
    PeerKeyOf(f.dstLabels, f.dstIp) == PeerKeyOf(g.dstLabels, g.dstIp) && f.port == g.port && f.protocol == g.protocol
  }

  predicate SharesGroup(f: Flow, g: Flow, d: Direction) {
    match d
    case Inbound => SameSource(f, g)
    case Outbound => SameDestination(f, g)
  }

  /** The finding shows this flow: inbound its source, outbound its destination, with port, protocol, decision and time. */
  predicate Shows(o: Finding, f: Flow, d: Direction) {
    && (match d
        case Inbound => o.peer == f.srcLabels && o.peerIp == f.srcIp
        case Outbound => o.peer == f.dstLabels && o.peerIp == f.dstIp)
    && o.port == f.port && o.protocol == ProtoName(f.protocol)
    && o.decision == f.draftDecision && o.lastDetected == f.lastDetected
  }

  lemma GroupIffShared(f: Flow, g: Flow, d: Direction)
    ensures BlockedFlow(f) <==> DraftBlocked(f.draftDecision)
    ensures KeyOf(f, d) == KeyOf(g, d) <==> SharesGroup(f, g, d)
  {
  }

  lemma {:induction false} TotalIsSum(flows: seq<Flow>, d: Direction, g: Flow)
    ensures Total(flows, d, KeyOf(g, d)) == SumShared(flows, g, d)
  {
    if flows != [] {
      var n := |flows| - 1;
      TotalIsSum(flows[..n], d, g);
      GroupIffShared(flows[n], g, d);
    }
  }

  /** The connections of the blocked flows that share g's group. */
  function SumShared(flows: seq<Flow>, g: Flow, d: Direction): int {
    if flows == [] then 0
    else
      var f := flows[|flows| - 1];
      SumShared(flows[..|flows| - 1], g, d) + if BlockedFlow(f) && SharesGroup(f, g, d) then f.connections else 0
  }

  /** Every finding shows the first blocked flow of its group, at the end that the direction asks for, with the
      connections of the whole group; and every blocked flow is in the group of some finding. */
  lemma FindingsShowFlows(flows: seq<Flow>, d: Direction, out: seq<Finding>)
    requires Lists(out, Summaries(flows, d))
    ensures forall o :: o in out ==> exists i :: 0 <= i < |flows| && ShowsGroupOf(o, flows, i, d)
    ensures forall f :: f in flows && BlockedFlow(f) ==>
      exists o, i :: o in out && 0 <= i < |flows| && SharesGroup(flows[i], f, d) && ShowsGroupOf(o, flows, i, d)
  {
    hide Summary, SharesGroup, Shows;
    forall o | o in out ensures exists i :: 0 <= i < |flows| && ShowsGroupOf(o, flows, i, d) {
      var k :| k in Keys(flows, d) && o == Summary(flows, d, k);
      var i := SummaryShows(flows, d, k);
    }
    forall f | f in flows && BlockedFlow(f)
      ensures exists o, i :: o in out && 0 <= i < |flows| && SharesGroup(flows[i], f, d) && ShowsGroupOf(o, flows, i, d)
    {
      GroupIffShared(f, f, d);
      var k := KeyOf(f, d);
      assert Summary(flows, d, k) in Summaries(flows, d);
      var i := SummaryShows(flows, d, k);
      GroupIffShared(flows[i], f, d);
      assert Summary(flows, d, k) in out;
    }
  }

  /** Flow i is blocked, the first of its group, and the finding shows it with the connections of its group. */
  predicate ShowsGroupOf(o: Finding, flows: seq<Flow>, i: nat, d: Direction)
    requires i < |flows|
  {
    && BlockedFlow(flows[i]) && Shows(o, flows[i], d) && o.connections == SumShared(flows, flows[i], d)
    && forall j :: 0 <= j < i && BlockedFlow(flows[j]) ==> !SharesGroup(flows[j], flows[i], d)
  }

  lemma SummaryShows(flows: seq<Flow>, d: Direction, k: Key) returns (i: nat)
    requires k in Keys(flows, d)
    ensures i < |flows| && ShowsGroupOf(Summary(flows, d, k), flows, i, d) && KeyOf(flows[i], d) == k
  {
    hide SharesGroup, PeerKeyOf, ProtoName;
    i := FirstIsFirst(flows, d, k);
    TotalIsSum(flows, d, flows[i]);
    GroupIffShared(flows[i], flows[i], d);
    forall j | 0 <= j < i && BlockedFlow(flows[j]) ensures !SharesGroup(flows[j], flows[i], d) {
      GroupIffShared(flows[j], flows[i], d);
    }
  }

  method ClassifyFlows(flows: seq<Flow>, d: Direction) returns (out: seq<Finding>)
    ensures Lists(out, Summaries(flows, d))
    ensures forall i, j :: 0 <= i < j < |out| ==> Precedes(out[i], out[j])
    ensures forall i, j :: 0 <= i < j < |out| ==>
      var x, y := PeerKeyOf(out[i].peer, out[i].peerIp), PeerKeyOf(out[j].peer, out[j].peerIp);
      Less(x, y) || (x == y && (out[i].port < out[j].port || (out[i].port == out[j].port && Less(out[i].protocol, out[j].protocol))))
    ensures forall o :: o in out ==> exists i :: 0 <= i < |flows| && ShowsGroupOf(o, flows, i, d)
  {
    hide NotAfter, Precedes, Summary, PeerKeyOf;
    var order, seen := GroupFlows(flows, d);
    out := [];
    for i := 0 to |order|
      invariant |out| == i && forall k :: 0 <= k < i ==> out[k] == seen[order[k]]
    {
      assert order[i] in order;
      out := out + [seen[order[i]]];
    }
    ghost var unsorted := out;
    SummariesListed(flows, d, order, seen, unsorted);
    NotAfterPreorder();
    out := Sort(out, NotAfter);
    ListsRearranged(unsorted, out, Summaries(flows, d));
    forall i, j | 0 <= i < j < |out| ensures Precedes(out[i], out[j]) {
      assert out[i] in Summaries(flows, d) && out[j] in Summaries(flows, d);
      var k :| k in Keys(flows, d) && out[i] == Summary(flows, d, k);
      var l :| l in Keys(flows, d) && out[j] == Summary(flows, d, l);
      SummaryTellsKey(flows, d, k, l);
    }
    PrecedesMeans(out);
    FindingsShowFlows(flows, d, out);
  }

  lemma PrecedesMeans(out: seq<Finding>)
    requires forall i, j :: 0 <= i < j < |out| ==> Precedes(out[i], out[j])
    ensures forall i, j :: 0 <= i < j < |out| ==>
      var x, y := PeerKeyOf(out[i].peer, out[i].peerIp), PeerKeyOf(out[j].peer, out[j].peerIp);
      Less(x, y) || (x == y && (out[i].port < out[j].port || (out[i].port == out[j].port && Less(out[i].protocol, out[j].protocol))))
  {
    hide PeerKeyOf, Less;
  }

  lemma SummariesDiffer(flows: seq<Flow>, d: Direction, k: Key, l: Key)
    requires k in Keys(flows, d) && l in Keys(flows, d) && Summary(flows, d, k) == Summary(flows, d, l)
    ensures k == l
  {
    ProtoNameInjective(k.proto, l.proto);
  }

  lemma SummariesListed(flows: seq<Flow>, d: Direction, order: seq<Key>, seen: map<Key, Finding>, out: seq<Finding>)
    requires Grouped(flows, d, order, seen)
    requires |out| == |order| && forall i :: 0 <= i < |out| ==> order[i] in seen && out[i] == seen[order[i]]
    ensures Lists(out, Summaries(flows, d))
  {
    hide Summary;
    forall i, j | 0 <= i < j < |out| ensures out[i] != out[j] {
      if out[i] == out[j] {
        SummariesDiffer(flows, d, order[i], order[j]);
      }
    }
    forall o | o in out ensures o in Summaries(flows, d) {
      var i :| 0 <= i < |out| && out[i] == o;
      assert order[i] in Keys(flows, d);
    }
    forall o | o in Summaries(flows, d) ensures o in out {
      var k :| k in Keys(flows, d) && o == Summary(flows, d, k);
      assert k in order;
      var i :| 0 <= i < |order| && order[i] == k;
      assert out[i] == o;
    }
  }

  // ----- Conservation -----

  function SumFindings(out: seq<Finding>): int {
    if out == [] then 0 else SumFindings(out[..|out| - 1]) + out[|out| - 1].connections
  }

  function SumBlocked(flows: seq<Flow>): int {
    if flows == [] then 0
    else
      var f := flows[|flows| - 1];
      SumBlocked(flows[..|flows| - 1]) + if DraftBlocked(f.draftDecision) then f.connections else 0
  }

  function CountBlocked(flows: seq<Flow>): nat {
    if flows == [] then 0
    else CountBlocked(flows[..|flows| - 1]) + if DraftBlocked(flows[|flows| - 1].draftDecision) then 1 else 0
  }

  function SumTotals(keys: seq<Key>, flows: seq<Flow>, d: Direction): int {
    if keys == [] then 0 else SumTotals(keys[..|keys| - 1], flows, d) + Total(flows, d, keys[|keys| - 1])
  }

  /** One more flow adds its connections to the one listed key it belongs to. */
  lemma {:induction false} SumTotalsMore(keys: seq<Key>, flows: seq<Flow>, f: Flow, d: Direction)
    requires forall i, j :: 0 <= i < j < |keys| ==> keys[i] != keys[j]
    ensures SumTotals(keys, flows + [f], d) == SumTotals(keys, flows, d)
      + if DraftBlocked(f.draftDecision) && KeyOf(f, d) in keys then f.connections else 0
  {
    if keys != [] {
      var n := |keys| - 1;
      SumTotalsMore(keys[..n], flows, f, d);
      assert (flows + [f])[..|flows|] == flows;
      assert keys == keys[..n] + [keys[n]];
      assert KeyOf(f, d) in keys <==> KeyOf(f, d) in keys[..n] || KeyOf(f, d) == keys[n];
    }
  }

  lemma {:induction false} SumTotalsNone(keys: seq<Key>, d: Direction)
    ensures SumTotals(keys, [], d) == 0
  {
    if keys != [] {
      SumTotalsNone(keys[..|keys| - 1], d);
    }
  }

  lemma {:induction false} TotalsConserved(keys: seq<Key>, flows: seq<Flow>, d: Direction)
    requires forall i, j :: 0 <= i < j < |keys| ==> keys[i] != keys[j]
    requires forall k :: k in Keys(flows, d) ==> k in keys
    ensures SumTotals(keys, flows, d) == SumBlocked(flows)
    decreases |flows|
  {
    if flows == [] {
      SumTotalsNone(keys, d);
    } else {
      var n := |flows| - 1;
      var f := flows[n];
      assert flows == flows[..n] + [f];
      KeysMore(flows[..n], f, d);
      TotalsConserved(keys, flows[..n], d);
      SumTotalsMore(keys, flows[..n], f, d);
    }
  }

  lemma {:induction false} KeysBehindEach(flows: seq<Flow>, d: Direction, out: seq<Finding>) returns (keys: seq<Key>)
    requires forall o :: o in out ==> o in Summaries(flows, d)
    ensures |keys| == |out|
    ensures forall i :: 0 <= i < |out| ==> keys[i] in Keys(flows, d) && out[i] == Summary(flows, d, keys[i])
  {
    if out == [] {
      keys := [];
    } else {
      var n := |out| - 1;
      var init := KeysBehindEach(flows, d, out[..n]);
      assert out[n] in out;
      var k :| k in Keys(flows, d) && out[n] == Summary(flows, d, k);
      keys := init + [k];
    }
  }

  /** The groups behind the findings, in the order of the findings. */
  lemma KeysBehind(flows: seq<Flow>, d: Direction, out: seq<Finding>) returns (keys: seq<Key>)
    requires Lists(out, Summaries(flows, d))
    ensures Lists(keys, Keys(flows, d)) && |keys| == |out|
    ensures forall i :: 0 <= i < |out| ==> out[i] == Summary(flows, d, keys[i])
  {
    hide Summary;
    keys := KeysBehindEach(flows, d, out);
    forall k | k in Keys(flows, d) ensures k in keys {
      assert Summary(flows, d, k) in Summaries(flows, d);
      var i :| 0 <= i < |out| && out[i] == Summary(flows, d, k);
      SummariesDiffer(flows, d, keys[i], k);
      assert keys[i] in keys;
    }
  }

  lemma {:induction false} SumFindingsIsSumTotals(flows: seq<Flow>, d: Direction, out: seq<Finding>, keys: seq<Key>)
    requires |out| == |keys| && forall i :: 0 <= i < |out| ==> keys[i] in Keys(flows, d) && out[i] == Summary(flows, d, keys[i])
    ensures SumFindings(out) == SumTotals(keys, flows, d)
  {
    if out != [] {
      SumFindingsIsSumTotals(flows, d, out[..|out| - 1], keys[..|keys| - 1]);
    }
  }

  lemma {:induction false} KeysAtMostBlocked(flows: seq<Flow>, d: Direction, keys: seq<Key>)
    requires Lists(keys, Keys(flows, d))
    ensures |keys| <= CountBlocked(flows)
    decreases |flows|
  {
    if flows == [] {
      ListsNothing(keys, Keys(flows, d));
    } else {
      var n := |flows| - 1;
      var f := flows[n];
      assert flows == flows[..n] + [f];
      KeysMore(flows[..n], f, d);
      if DraftBlocked(f.draftDecision) && KeyOf(f, d) !in Keys(flows[..n], d) {
        var i :| 0 <= i < |keys| && keys[i] == KeyOf(f, d);
        var rest := keys[..i] + keys[i + 1..];
        ListsWithout(keys, Keys(flows, d), i);
        assert Keys(flows, d) - {keys[i]} == Keys(flows[..n], d);
        KeysAtMostBlocked(flows[..n], d, rest);
      } else {
        assert Keys(flows, d) == Keys(flows[..n], d);
        KeysAtMostBlocked(flows[..n], d, keys);
      }
    }
  }

  /** No connection of a blocked flow is lost or counted twice, and there are no more findings than blocked flows. */
  lemma {:induction false} FindingsConserveConnections(flows: seq<Flow>, d: Direction, out: seq<Finding>)
    requires Lists(out, Summaries(flows, d))
    ensures SumFindings(out) == SumBlocked(flows)
    ensures |out| <= CountBlocked(flows)
  {
    var keys := KeysBehind(flows, d, out);
    SumFindingsIsSumTotals(flows, d, out, keys);
    TotalsConserved(keys, flows, d);
    KeysAtMostBlocked(flows, d, keys);
  }

  // ----- Order of the flows -----

  lemma {:induction false} TotalSplit(a: seq<Flow>, b: seq<Flow>, d: Direction, k: Key)
    ensures Total(a + b, d, k) == Total(a, d, k) + Total(b, d, k)
  {
    if b == [] {
      assert a + b == a;
    } else {
      var n := |b| - 1;
      assert (a + b)[..|a + b| - 1] == a + b[..n];
      TotalSplit(a, b[..n], d, k);
    }
  }

  lemma KeysUnordered(flows: seq<Flow>, other: seq<Flow>, d: Direction)
    requires multiset(flows) == multiset(other)
    ensures Keys(flows, d) == Keys(other, d)
  {
    forall f ensures f in flows <==> f in other {
      assert f in flows <==> f in multiset(flows);
      assert f in other <==> f in multiset(other);
    }
  }

  /** Takes the last element of one sequence out of a rearranged one. */
  lemma RemoveLast<T>(q: seq<T>, r: seq<T>) returns (a: seq<T>, b: seq<T>)
    requires q != [] && multiset(q) == multiset(r)
    ensures r == a + [q[|q| - 1]] + b && multiset(q[..|q| - 1]) == multiset(a + b)
  {
    var init, x := q[..|q| - 1], q[|q| - 1];
    assert q == init + [x] + [];
    MultisetAround(init, x, []);
    assert init + [] == init;
    assert x in multiset(r);
    var i :| 0 <= i < |r| && r[i] == x;
    a, b := r[..i], r[i + 1..];
    assert r == a + [x] + b;
    MultisetAround(a, x, b);
    CancelOne(multiset(init), multiset(a + b), x);
  }

  lemma CancelOne<T>(m: multiset<T>, n: multiset<T>, x: T)
    requires m + multiset{x} == n + multiset{x}
    ensures m == n
  {
    assert (m + multiset{x}) - multiset{x} == m && (n + multiset{x}) - multiset{x} == n;
  }

  lemma {:induction false} TotalUnordered(flows: seq<Flow>, other: seq<Flow>, d: Direction, k: Key)
    requires multiset(flows) == multiset(other)
    ensures Total(flows, d, k) == Total(other, d, k)
    decreases |flows|
  {
    assert |multiset(flows)| == |flows| && |multiset(other)| == |other|;
    if flows != [] {
      var n := |flows| - 1;
      var a, b := RemoveLast(flows, other);
      TotalUnordered(flows[..n], a + b, d, k);
      TotalSplit(a, b, d, k);
      TotalSplit(a + [flows[n]], b, d, k);
      assert (a + [flows[n]])[..|a|] == a;
    }
  }

  /** Permuting the flows changes neither the groups nor their connections. */
  lemma {:induction false} GroupsUnordered(flows: seq<Flow>, other: seq<Flow>, d: Direction)
    requires multiset(flows) == multiset(other)
    ensures Keys(flows, d) == Keys(other, d)
    ensures forall k :: Total(flows, d, k) == Total(other, d, k)
  {
    KeysUnordered(flows, other, d);
    forall k ensures Total(flows, d, k) == Total(other, d, k) {
      TotalUnordered(flows, other, d, k);
    }
  }

  // ----- Counting decisions -----

  function CountDecision(flows: seq<Flow>, decision: string): nat {
    if flows == [] then 0
    else CountDecision(flows[..|flows| - 1], decision) + if flows[|flows| - 1].draftDecision == decision then 1 else 0
  }

  lemma {:induction false} CountDecisionIsSize(flows: seq<Flow>, decision: string, s: set<int>)
    requires forall i :: i in s ==> 0 <= i < |flows| && flows[i].draftDecision == decision
    requires forall i :: 0 <= i < |flows| && flows[i].draftDecision == decision ==> i in s
    ensures CountDecision(flows, decision) == |s|
  {
    if flows == [] {
      assert forall i :: i !in s;
      assert s == {};
    } else {
      var n := |flows| - 1;
      CountDecisionIsSize(flows[..n], decision, s - {n});
      assert n in s ==> s == (s - {n}) + {n};
      assert n !in s ==> s == s - {n};
    }
  }

  method SummarizeFlows(flows: seq<Flow>) returns (c: DecisionCounts)
    ensures c.total == |flows| == c.allowed + c.potentiallyBlocked + c.blocked + c.unknown
    ensures c.allowed == CountDecision(flows, "allowed")
    ensures c.potentiallyBlocked == CountDecision(flows, "potentially_blocked")
    ensures c.blocked == CountDecision(flows, "blocked")
    ensures c.blocked + c.potentiallyBlocked == CountBlocked(flows)
  {
    c := DecisionCounts(0, 0, 0, 0, 0);
    for i := 0 to |flows|
      invariant c.total == i == c.allowed + c.potentiallyBlocked + c.blocked + c.unknown
      invariant c.allowed == CountDecision(flows[..i], DECISION_ALLOWED)
      invariant c.potentiallyBlocked == CountDecision(flows[..i], DECISION_POTENTIALLY_BLOCKED)
      invariant c.blocked == CountDecision(flows[..i], DECISION_BLOCKED)
      invariant c.blocked + c.potentiallyBlocked == CountBlocked(flows[..i])
    {
      assert flows[..i + 1][..i] == flows[..i];
      var decision := flows[i].draftDecision;
      if decision == DECISION_ALLOWED {
        c := c.(allowed := c.allowed + 1);
      } else if decision == DECISION_POTENTIALLY_BLOCKED {
        c := c.(potentiallyBlocked := c.potentiallyBlocked + 1);
      } else if decision == DECISION_BLOCKED {
        c := c.(blocked := c.blocked + 1);
      } else {
        c := c.(unknown := c.unknown + 1);
      }
      c := c.(total := c.total + 1);
    }
    assert flows[..|flows|] == flows;
  }

  // ----- Truncation -----

  /** Busiest first; then peer key, then port. */
  predicate NotBusierAfter(a: Finding, b: Finding) {
    var x, y := PeerKeyOf(a.peer, a.peerIp), PeerKeyOf(b.peer, b.peerIp);
    b.connections < a.connections
    || (a.connections == b.connections && (Less(x, y) || (x == y && a.port <= b.port)))
  }

  lemma NotBusierAfterPreorder()
    ensures Preorder(NotBusierAfter)
  {
    hide PeerKeyOf, Less;
    forall a, b ensures NotBusierAfter(a, b) || NotBusierAfter(b, a) {
      LessTotal(PeerKeyOf(a.peer, a.peerIp), PeerKeyOf(b.peer, b.peerIp));
    }
    forall a, b, c | NotBusierAfter(a, b) && NotBusierAfter(b, c) ensures NotBusierAfter(a, c) {
      var x, y, z := PeerKeyOf(a.peer, a.peerIp), PeerKeyOf(b.peer, b.peerIp), PeerKeyOf(c.peer, c.peerIp);
      if Less(x, y) && Less(y, z) {
        LessTransitive(x, y, z);
      }
    }
  }

  /** Keeps the n busiest findings; n <= 0 means no cap. */
  method CapFindings(f: seq<Finding>, n: int) returns (out: seq<Finding>, truncated: bool, ghost dropped: seq<Finding>)
    ensures multiset(out) + multiset(dropped) == multiset(f)
    ensures truncated <==> dropped != []
    ensures truncated <==> 0 < n < |f|
    ensures if truncated then |out| == n && SortedBy(NotBusierAfter, out) else out == f
    ensures truncated ==> forall i, j :: 0 <= i < j < |out| ==>
      && out[i].connections >= out[j].connections
      && (out[i].connections == out[j].connections ==>
            var x, y := PeerKeyOf(out[i].peer, out[i].peerIp), PeerKeyOf(out[j].peer, out[j].peerIp);
            Less(x, y) || (x == y && out[i].port <= out[j].port))
    ensures forall i, j :: 0 <= i < |out| && 0 <= j < |dropped| ==> out[i].connections >= dropped[j].connections
  {
    if n <= 0 || |f| <= n {
      return f, false, [];
    }
    NotBusierAfterPreorder();
    var sorted := Sort(f, NotBusierAfter);
    assert |sorted| == |multiset(sorted)| == |multiset(f)| == |f|;
    assert sorted == sorted[..n] + sorted[n..];
    out, truncated, dropped := sorted[..n], true, sorted[n..];
    forall i, j | 0 <= i < |out| && 0 <= j < |dropped| ensures out[i].connections >= dropped[j].connections {
      assert NotBusierAfter(sorted[i], sorted[n + j]);
    }
  }
}
