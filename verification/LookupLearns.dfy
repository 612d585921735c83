/** What a lookup learns from answers, whom it asks, and exactly when it ends. */
module LookupLearns {
  import opened Bytes
  import opened NodeId
  import RoutingTable
  import opened Krpc
  import opened Lookup

  type DHTNode = RoutingTable.DHTNode

  // ----- the nodes of an answer -----

  /** What stands behind the old list: of each endpoint that was not seen, the first node of the answer, and no other. */
  lemma {:induction false} DiscoveredAppends(shortlist: seq<DHTNode>, seen: set<Key>, nodes: seq<DHTNode>)
    returns (more: seq<DHTNode>)
    ensures Discovered(shortlist, seen, nodes) == shortlist + more
    ensures DifferentKeys(more) && Keys(more) == Keys(nodes) - seen && (forall n | n in more :: n in nodes)
    ensures forall k | 0 <= k < |nodes| && KeyOf(nodes[k]) !in seen + Keys(nodes[..k]) :: nodes[k] in more
    decreases |nodes|
  {
    hide KeyOf, Keys;
    more := [];
    if nodes == [] {
      NoKeys();
    } else {
      var n := nodes[0];
      KeysOfFirst(nodes);
      if KeyOf(n) in seen {
        more := DiscoveredAppends(shortlist, seen, nodes[1..]);
      } else {
        var rest := DiscoveredAppends(shortlist + [n], seen + {KeyOf(n)}, nodes[1..]);
        more := [n] + rest;
        assert more[1..] == rest;
        KeysOfFirst(more);
        KeysHold(rest);
      }
      forall k | 0 <= k < |nodes| && KeyOf(nodes[k]) !in seen + Keys(nodes[..k]) ensures nodes[k] in more {
        if k > 0 {
          assert nodes[..k][0] == n && nodes[..k][1..] == nodes[1..][..k - 1];
          KeysOfFirst(nodes[..k]);
          assert nodes[1..][k - 1] == nodes[k];
        }
      }
    }
  }

  lemma NoKeys()
    ensures Keys([]) == {}
  {
  }

  lemma KeysHold(nodes: seq<DHTNode>)
    ensures forall i | 0 <= i < |nodes| :: KeyOf(nodes[i]) in Keys(nodes)
  {
  }

  /**
   * Entering the nodes of an answer keeps the list and appends nodes of the answer at new, pairwise different endpoints;
   * then the list has every endpoint of the answer.
   */
  lemma AnswerIsEntered(shortlist: seq<DHTNode>, nodes: seq<DHTNode>)
    ensures var r := Discovered(shortlist, Keys(shortlist), nodes);
      && shortlist <= r && Keys(r) == Keys(shortlist) + Keys(nodes)
      && DifferentKeys(r[|shortlist|..])
      && forall n | n in r[|shortlist|..] :: n in nodes && KeyOf(n) !in Keys(shortlist)
  {
    hide KeyOf;
    var more := DiscoveredAppends(shortlist, Keys(shortlist), nodes);
    assert (shortlist + more)[|shortlist|..] == more;
    KeysJoin(shortlist, more);
  }

  lemma KeysJoin(a: seq<DHTNode>, b: seq<DHTNode>)
    ensures Keys(a + b) == Keys(a) + Keys(b)
  {
  }

  // ----- the list after a step -----

  /** The identifier is in the list, unless 32 closer ones are. */
  predicate ListedUnlessFar(lk: LookupState, n: DHTNode) {
    n.id in Ids(lk.shortlist) || (|lk.shortlist| == 32 && forall c | c in lk.shortlist :: RoutingTable.Far(c, lk.target) < RoutingTable.Far(n, lk.target))
  }

  lemma AdvancedLists(lk: LookupState, order: seq<DHTNode>, n: DHTNode)
    requires RoutingTable.SortedByDistance(order, lk.target) && n in order
    ensures ListedUnlessFar(Advanced(lk, order), n)
    ensures forall c | c in Advanced(lk, order).shortlist :: c in order
  {
    hide RoutingTable.Far, Uniqued, RoutingTable.SortedByDistance, KeyOf;
    var unique, s := Uniqued(order), Advanced(lk, order).shortlist;
    UniquedIsStrict(order, lk.target);
    UniquedIsPart(order);
    assert n.id in Ids(order);
    var u :| u in unique && u.id == n.id;
    var i :| 0 <= i < |unique| && unique[i] == u;
    SameFar(u, n, lk.target);
    if i < |s| {
      assert s[i] == u && u in s;
    } else {
      forall c | c in s ensures RoutingTable.Far(c, lk.target) < RoutingTable.Far(n, lk.target) {
        var j :| 0 <= j < |s| && s[j] == c;
        assert unique[j] == c;
      }
    }
  }

  lemma UniquedIsPart(nodes: seq<DHTNode>)
    ensures forall c | c in Uniqued(nodes) :: c in nodes
  {
  }

  lemma SameFar(a: DHTNode, b: DHTNode, target: Id)
    requires a.id == b.id
    ensures RoutingTable.Far(a, target) == RoutingTable.Far(b, target)
  {
  }

  /** After an answer with nodes, every endpoint of the answer has a node that the lookup lists, unless 32 are closer. */
  lemma AnswerIsLearned(c: Client, msg: Response, order: seq<DHTNode>, now: int, n: DHTNode) returns (m: DHTNode)
    requires OfLookup(c, msg.tid) && Legal(c, Answer(msg, order, now)) && msg.nodes.Some? && n in msg.nodes.value
    ensures var l := c.pending[msg.tid].lookup.value; var known := c.lookups[l].shortlist;
      && KeyOf(m) == KeyOf(n) && (m in known || m in msg.nodes.value) && (KeyOf(n) !in Keys(known) ==> m in msg.nodes.value)
      && ListedUnlessFar(Apply(c, Answer(msg, order, now)).lookups[l], m)
  {
    hide Discovered, KeyOf, ListedUnlessFar, Advanced, RoutingTable.SortedByDistance;
    var l := c.pending[msg.tid].lookup.value;
    var known, r := c.lookups[l].shortlist, AnsweredLookup(c, msg).shortlist;
    AnswerIsEntered(known, msg.nodes.value);
    assert KeyOf(n) in Keys(r);
    m :| m in r && KeyOf(m) == KeyOf(n);
    assert r == known + r[|known|..];
    assert m in multiset(r) && m in multiset(order) && m in order;
    AdvancedLists(AnsweredLookup(c, msg), order, m);
  }

  // ----- whole runs -----

  /** The lookup is told of the node in this step: at its start, or by an answer that enters it. */
  predicate Hears(c: Client, e: Event, l: nat, n: DHTNode) {
    match e
    case Start(_, _, _, nodes, _, _) => l == |c.lookups| && n in nodes
    case Answer(msg, _, _) => OfLookup(c, msg.tid) && c.pending[msg.tid].lookup == Some(l) && n in AnsweredLookup(c, msg).shortlist
    case _ => false
  }

  lemma HeardIsListed(c: Client, e: Event, l: nat, n: DHTNode)
    requires Legal(c, e) && Hears(c, e, l, n)
    ensures l < |Apply(c, e).lookups| && ListedUnlessFar(Apply(c, e).lookups[l], n)
  {
    hide Discovered, KeyOf, ListedUnlessFar, Advanced, RoutingTable.SortedByDistance;
    match e {
      case Start(target, kind, infoHash, nodes, order, now) =>
        assert n in multiset(nodes) && n in multiset(order) && n in order;
        AdvancedLists(NewLookup(target, kind, infoHash, nodes), order, n);
      case Answer(msg, order, now) =>
        var before := AnsweredLookup(c, msg);
        assert n in multiset(before.shortlist) && n in multiset(order) && n in order;
        AdvancedLists(before, order, n);
    }
  }

  lemma {:induction false} CountIds(nodes: seq<DHTNode>)
    requires RoutingTable.UniqueIds(nodes)
    ensures |Ids(nodes)| == |nodes|
  {
    if nodes != [] {
      var init, last := nodes[..|nodes| - 1], nodes[|nodes| - 1];
      CountIds(init);
      assert nodes == init + [last];
      IdsOfLast(init, last);
    }
  }

  /** A list that took in all of another one has what that one had, or 32 closer identifiers. */
  lemma StillListed(before: LookupState, after: LookupState, n: DHTNode)
    requires after.target == before.target && ShortlistOk(before) && ShortlistOk(after) && ListedUnlessFar(before, n)
    requires forall c | c in before.shortlist :: ListedUnlessFar(after, c)
    ensures ListedUnlessFar(after, n)
  {
    hide RoutingTable.Far;
    if n.id in Ids(before.shortlist) {
      var c :| c in before.shortlist && c.id == n.id;
      SameFar(c, n, before.target);
    } else if c :| c in before.shortlist && c.id !in Ids(after.shortlist) {
    } else {
      CountIds(before.shortlist);
      CountIds(after.shortlist);
      assert Ids(before.shortlist) <= Ids(after.shortlist);
      SubsetOfSmaller(Ids(before.shortlist), Ids(after.shortlist));
      forall c | c in after.shortlist ensures RoutingTable.Far(c, after.target) < RoutingTable.Far(n, after.target) {
        assert c.id in Ids(before.shortlist);
        var b :| b in before.shortlist && b.id == c.id;
        SameFar(b, c, after.target);
      }
    }
  }

  lemma SubsetOfSmaller<T>(a: set<T>, b: set<T>)
    requires a <= b && |a| >= |b|
    ensures a == b
  {
    assert b == a + (b - a);
    assert |b| == |a| + |b - a|;
  }

  /** One step of the client forgets no identifier, unless 32 closer ones are in the list. */
  lemma ListStep(c: Client, e: Event, l: nat, n: DHTNode)
    requires Invariant(c) && Legal(c, e) && Apply(c, e).generated <= TWO_32
    requires l < |c.lookups| && ListedUnlessFar(c.lookups[l], n)
    ensures l < |Apply(c, e).lookups| && ListedUnlessFar(Apply(c, e).lookups[l], n)
  {
    hide Discovered, KeyOf, ListedUnlessFar, Advanced, RoutingTable.SortedByDistance, QueriesOk;
    ApplyKeeps(c, e);
    var next := Apply(c, e);
    if next.lookups[l] != c.lookups[l] {
      var msg, order := e.msg, e.order;
      var before := AnsweredLookup(c, msg);
      KeepsList(c, msg);
      assert l == c.pending[msg.tid].lookup.value && next.lookups[l] == Advanced(before, order);
      forall m | m in c.lookups[l].shortlist ensures ListedUnlessFar(next.lookups[l], m) {
        assert m in multiset(before.shortlist) && m in multiset(order) && m in order;
        AdvancedLists(before, order, m);
      }
      SameTarget(before, order);
      StillListed(c.lookups[l], next.lookups[l], n);
    }
  }

  lemma SameTarget(lk: LookupState, order: seq<DHTNode>)
    ensures Advanced(lk, order).target == lk.target
  {
  }

  lemma KeepsList(c: Client, msg: Response)
    requires OfLookup(c, msg.tid)
    ensures var lk := c.lookups[c.pending[msg.tid].lookup.value];
      AnsweredLookup(c, msg).target == lk.target && forall m | m in lk.shortlist :: m in AnsweredLookup(c, msg).shortlist
  {
    var lk := c.lookups[c.pending[msg.tid].lookup.value];
    if msg.nodes.Some? {
      AnswerIsEntered(lk.shortlist, msg.nodes.value);
      var r := AnsweredLookup(c, msg).shortlist;
      assert r == lk.shortlist + r[|lk.shortlist|..];
    }
  }

  /** In every run, a lookup lists every node it was ever told of, unless 32 closer identifiers are in its list. */
  lemma {:induction false} NothingHeardIsForgotten(events: seq<Event>, i: nat, l: nat, n: DHTNode)
    requires LegalRun(events) && Run(events).generated <= TWO_32 && i < |events| && Hears(Run(events[..i]), events[i], l, n)
    ensures l < |Run(events).lookups| && ListedUnlessFar(Run(events).lookups[l], n)
  {
    hide Apply, Legal, Hears, ListedUnlessFar, Invariant;
    var last := |events| - 1;
    var init := events[..last];
    LegalPrefix(events, last);
    FewerGenerated(events, last);
    if i == last {
      HeardIsListed(Run(init), events[last], l, n);
    } else {
      assert init[..i] == events[..i];
      NothingHeardIsForgotten(init, i, l, n);
      RunKeeps(init);
      ListStep(Run(init), events[last], l, n);
    }
  }
}
