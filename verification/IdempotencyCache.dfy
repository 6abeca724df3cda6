/** The deduplication cache (src/idempotency_cache.cpp): one array of nodes that carries a doubly
    linked recency list, a free list and a hash chain per bucket. */
module IdempotencyCache {
  import opened Types
  import opened Bits
  import opened Lru

  const NIL: int := -1

  datatype Node = Node(key: Key, prev: int, next: int, hashNext: int, occupied: bool)

  function NextOf(n: Node): int { n.next }
  function HashNextOf(n: Node): int { n.hashNext }

  /** Element `i`, or NIL outside the sequence. */
  function At(s: seq<int>, i: int): int {
    if 0 <= i < |s| then s[i] else NIL
  }

  function Drop(s: seq<int>, p: nat): seq<int>
    requires p < |s|
  {
    s[..p] + s[p + 1..]
  }

  // ---------- The three lists, as facts about the nodes ----------

  /** Following `link` from `head` visits exactly `order` and then ends. */
  ghost predicate Linked(nodes: seq<Node>, link: Node -> int, head: int, order: seq<int>) {
    && head == At(order, 0)
    && Distinct(order)
    && forall i :: 0 <= i < |order| ==> 0 <= order[i] < |nodes| && link(nodes[order[i]]) == At(order, i + 1)
  }

  ghost predicate LruList(nodes: seq<Node>, head: int, tail: int, lru: seq<int>) {
    && Linked(nodes, NextOf, head, lru)
    && tail == At(lru, |lru| - 1)
    && forall i :: 0 <= i < |lru| ==> nodes[lru[i]].prev == At(lru, i - 1)
  }

  /** Changing nothing but recency links. */
  ghost predicate SameData(a: seq<Node>, b: seq<Node>) {
    |a| == |b| && forall i :: 0 <= i < |a| ==>
      b[i].key == a[i].key && b[i].hashNext == a[i].hashNext && b[i].occupied == a[i].occupied
  }

  ghost predicate SameOutside(a: seq<Node>, b: seq<Node>, changed: seq<int>) {
    |a| == |b| && forall i :: 0 <= i < |a| && i !in changed ==> b[i] == a[i]
  }

  lemma LinkedFrame(a: seq<Node>, b: seq<Node>, link: Node -> int, head: int, order: seq<int>)
    requires Linked(a, link, head, order) && |a| == |b|
    requires forall i :: 0 <= i < |order| ==> link(b[order[i]]) == link(a[order[i]])
    ensures Linked(b, link, head, order)
  {
  }

  // ---------- Recency list ----------

  datatype Links = Links(nodes: seq<Node>, head: int, tail: int)

  lemma UnlinkedAt(nodes: seq<Node>, head: int, tail: int, lru: seq<int>, p: nat, r: Links, j: nat)
    requires LruList(nodes, head, tail, lru) && p < |lru| && j < |lru| && j != p
    requires Unlinked(nodes, head, tail, lru[p], r)
    ensures r.nodes[lru[j]].next == if j == p - 1 then At(lru, p + 1) else At(lru, j + 1)
    ensures r.nodes[lru[j]].prev == if j == p + 1 then At(lru, p - 1) else At(lru, j - 1)
  {
  }

  lemma DropUnique(s: seq<int>, p: nat)
    requires Distinct(s) && p < |s|
    ensures Distinct(Drop(s, p))
    ensures forall x :: x in Drop(s, p) <==> x in s && x != s[p]
  {
    forall x | x in s && x != s[p] ensures x in Drop(s, p) {
      var j :| 0 <= j < |s| && s[j] == x;
      assert Drop(s, p)[if j < p then j else j - 1] == x;
    }
  }

  lemma DropAt(s: seq<int>, p: nat, i: int)
    requires p < |s|
    ensures At(Drop(s, p), i) == At(s, if i < p then i else i + 1)
  {
  }

  lemma SkipRest(n: Node, s: seq<int>, p: nat, i: nat, j: nat)
    requires p < |s| && i < |s| - 1 && j == (if i < p then i else i + 1)
    requires n.next == if j == p - 1 then At(s, p + 1) else At(s, j + 1)
    requires n.prev == if j == p + 1 then At(s, p - 1) else At(s, j - 1)
    ensures Drop(s, p)[i] == s[j]
    ensures n.next == At(Drop(s, p), i + 1) && n.prev == At(Drop(s, p), i - 1)
  {
    DropAt(s, p, i + 1);
    DropAt(s, p, i - 1);
  }

  lemma UnlinkedEnds(nodes: seq<Node>, head: int, tail: int, lru: seq<int>, p: nat, r: Links)
    requires LruList(nodes, head, tail, lru) && p < |lru|
    requires Unlinked(nodes, head, tail, lru[p], r)
    ensures r.head == At(Drop(lru, p), 0) && r.tail == At(Drop(lru, p), |lru| - 2)
  {
    DropAt(lru, p, 0);
    DropAt(lru, p, |lru| - 2);
  }

  lemma UnlinkKeepsList(nodes: seq<Node>, head: int, tail: int, lru: seq<int>, p: nat, r: Links)
    requires LruList(nodes, head, tail, lru) && p < |lru|
    requires Unlinked(nodes, head, tail, lru[p], r)
    ensures LruList(r.nodes, r.head, r.tail, Drop(lru, p))
  {
    hide Distinct, Unlinked;
    var rest := Drop(lru, p);
    DropUnique(lru, p);
    UnlinkedEnds(nodes, head, tail, lru, p, r);
    forall i | 0 <= i < |rest|
      ensures 0 <= rest[i] < |r.nodes|
      ensures NextOf(r.nodes[rest[i]]) == At(rest, i + 1)
      ensures r.nodes[rest[i]].prev == At(rest, i - 1)
    {
      UnlinkedLink(nodes, head, tail, lru, p, r, i);
    }
  }

  lemma UnlinkedLink(nodes: seq<Node>, head: int, tail: int, lru: seq<int>, p: nat, r: Links, i: nat)
    requires LruList(nodes, head, tail, lru) && p < |lru| && i < |lru| - 1
    requires Unlinked(nodes, head, tail, lru[p], r)
    ensures var rest := Drop(lru, p);
            && 0 <= rest[i] < |r.nodes|
            && NextOf(r.nodes[rest[i]]) == At(rest, i + 1) && r.nodes[rest[i]].prev == At(rest, i - 1)
  {
    hide Distinct;
    var j := if i < p then i else i + 1;
    UnlinkedAt(nodes, head, tail, lru, p, r, j);
    SkipRest(r.nodes[lru[j]], lru, p, i, j);
  }

  /** The effect of taking node `idx` out of the recency list. */
  ghost predicate Unlinked(nodes: seq<Node>, head: int, tail: int, idx: int, r: Links)
  {
    && 0 <= idx < |nodes| == |r.nodes|
    && var before := nodes[idx].prev;
    var after := nodes[idx].next;
    && r.head == (if before != NIL then head else after)
    && r.tail == (if after != NIL then tail else before)
    && forall i :: 0 <= i < |nodes| ==>
         r.nodes[i] == if i == idx then nodes[i].(prev := NIL, next := NIL)
                       else nodes[i].(next := if i == before then after else nodes[i].next,
                                      prev := if i == after then before else nodes[i].prev)
  }

  /** The three updates made when a node is taken out. */
  function UnlinkedNodes(nodes: seq<Node>, before: int, after: int, idx: int): seq<Node>
    requires 0 <= idx < |nodes| && before < |nodes| && after < |nodes|
  {
    var n1 := if 0 <= before then nodes[before := nodes[before].(next := after)] else nodes;
    var n2 := if 0 <= after then n1[after := n1[after].(prev := before)] else n1;
    n2[idx := n2[idx].(prev := NIL, next := NIL)]
  }

  lemma UnlinkedNodeAt(nodes: seq<Node>, before: int, after: int, idx: int, i: int)
    requires 0 <= idx < |nodes| && -1 <= before < |nodes| && -1 <= after < |nodes| && 0 <= i < |nodes|
    requires before != idx && after != idx && (before == after ==> before == NIL)
    ensures UnlinkedNodes(nodes, before, after, idx)[i]
         == if i == idx then nodes[i].(prev := NIL, next := NIL)
            else nodes[i].(next := if i == before then after else nodes[i].next,
                           prev := if i == after then before else nodes[i].prev)
  {
  }

  lemma Neighbours(nodes: seq<Node>, head: int, tail: int, lru: seq<int>, p: nat)
    requires LruList(nodes, head, tail, lru) && p < |lru|
    ensures var before, after := nodes[lru[p]].prev, nodes[lru[p]].next;
            && before != lru[p] && after != lru[p] && (before == after ==> before == NIL)
            && (before == NIL || (before in lru && 0 <= before < |nodes|))
            && (after == NIL || (after in lru && 0 <= after < |nodes|))
  {
    assert nodes[lru[p]].prev == At(lru, p - 1) && nodes[lru[p]].next == At(lru, p + 1);
  }

  lemma UnlinkEffect(nodes: seq<Node>, head: int, tail: int, lru: seq<int>, p: nat)
    requires 0 <= p < |lru| && 0 <= lru[p] < |nodes|
    requires var before, after := nodes[lru[p]].prev, nodes[lru[p]].next;
             && before != lru[p] && after != lru[p] && (before == after ==> before == NIL)
             && (before == NIL || (before in lru && 0 <= before < |nodes|))
             && (after == NIL || (after in lru && 0 <= after < |nodes|))
    ensures var r := UnlinkedLinks(nodes, head, tail, lru[p]);
            && Unlinked(nodes, head, tail, lru[p], r)
            && SameData(nodes, r.nodes)
            && SameOutside(nodes, r.nodes, lru)
  {
    var before, after := nodes[lru[p]].prev, nodes[lru[p]].next;
    var r := UnlinkedNodes(nodes, before, after, lru[p]);
    forall i | 0 <= i < |nodes|
      ensures r[i] == if i == lru[p] then nodes[i].(prev := NIL, next := NIL)
                      else nodes[i].(next := if i == before then after else nodes[i].next,
                                     prev := if i == after then before else nodes[i].prev)
    {
      UnlinkedNodeAt(nodes, before, after, lru[p], i);
    }
  }

  function UnlinkedLinks(nodes: seq<Node>, head: int, tail: int, idx: int): Links
    requires 0 <= idx < |nodes| && -1 <= nodes[idx].prev < |nodes| && -1 <= nodes[idx].next < |nodes|
  {
    var before, after := nodes[idx].prev, nodes[idx].next;
    Links(UnlinkedNodes(nodes, before, after, idx), if before != NIL then head else after, if after != NIL then tail else before)
  }

  lemma UnlinkCorrect(nodes: seq<Node>, head: int, tail: int, lru: seq<int>, p: nat)
    requires LruList(nodes, head, tail, lru) && p < |lru|
    ensures 0 <= lru[p] < |nodes| && -1 <= nodes[lru[p]].prev < |nodes| && -1 <= nodes[lru[p]].next < |nodes|
    ensures var r := UnlinkedLinks(nodes, head, tail, lru[p]);
            && LruList(r.nodes, r.head, r.tail, Drop(lru, p))
            && SameData(nodes, r.nodes)
            && SameOutside(nodes, r.nodes, lru)
  {
    Neighbours(nodes, head, tail, lru, p);
    UnlinkEffect(nodes, head, tail, lru, p);
    UnlinkKeepsList(nodes, head, tail, lru, p, UnlinkedLinks(nodes, head, tail, lru[p]));
  }

  /** The effect of putting node `idx` in front. */
  ghost predicate Pushed(nodes: seq<Node>, head: int, tail: int, idx: int, r: Links)
  {
    && 0 <= idx < |nodes| == |r.nodes|
    && r.head == idx
    && r.tail == (if tail == NIL then idx else tail)
    && forall i :: 0 <= i < |nodes| ==>
         r.nodes[i] == if i == idx then nodes[i].(prev := NIL, next := head)
                       else if i == head then nodes[i].(prev := idx) else nodes[i]
  }

  lemma PushedAt(nodes: seq<Node>, head: int, tail: int, lru: seq<int>, idx: int, r: Links, i: nat)
    requires LruList(nodes, head, tail, lru) && idx !in lru && i < |lru|
    requires Pushed(nodes, head, tail, idx, r)
    ensures 0 <= lru[i] < |r.nodes|
    ensures r.nodes[lru[i]].next == At(lru, i + 1)
    ensures r.nodes[lru[i]].prev == if i == 0 then idx else lru[i - 1]
  {
    assert lru[i] in lru;
  }

  lemma ConsAt(s: seq<int>, x: int, i: int)
    ensures At([x] + s, i) == if i == 0 then x else if i < 0 then NIL else At(s, i - 1)
  {
  }

  lemma PushKeepsList(nodes: seq<Node>, head: int, tail: int, lru: seq<int>, idx: int, r: Links)
    requires LruList(nodes, head, tail, lru) && idx !in lru
    requires Pushed(nodes, head, tail, idx, r)
    ensures LruList(r.nodes, r.head, r.tail, [idx] + lru)
  {
    var all := [idx] + lru;
    forall i | 0 <= i < |all|
      ensures 0 <= all[i] < |r.nodes|
      ensures NextOf(r.nodes[all[i]]) == At(all, i + 1)
      ensures r.nodes[all[i]].prev == At(all, i - 1)
    {
      PushedLink(nodes, head, tail, lru, idx, r, i);
    }
    ConsAt(lru, idx, |lru|);
  }

  lemma PushedLink(nodes: seq<Node>, head: int, tail: int, lru: seq<int>, idx: int, r: Links, i: nat)
    requires LruList(nodes, head, tail, lru) && idx !in lru && i <= |lru|
    requires Pushed(nodes, head, tail, idx, r)
    ensures var all := [idx] + lru;
            && 0 <= all[i] < |r.nodes|
            && NextOf(r.nodes[all[i]]) == At(all, i + 1) && r.nodes[all[i]].prev == At(all, i - 1)
  {
    hide Distinct;
    ConsAt(lru, idx, i + 1);
    ConsAt(lru, idx, i - 1);
    if i > 0 {
      PushedAt(nodes, head, tail, lru, idx, r, i - 1);
    }
  }

  /** The two node updates made when a node is put in front. */
  function PushedNodes(nodes: seq<Node>, head: int, idx: int): seq<Node>
    requires 0 <= idx < |nodes| && head < |nodes|
  {
    var n1 := nodes[idx := nodes[idx].(prev := NIL, next := head)];
    if 0 <= head then n1[head := n1[head].(prev := idx)] else n1
  }

  lemma PushCorrect(nodes: seq<Node>, head: int, tail: int, lru: seq<int>, idx: int)
    requires LruList(nodes, head, tail, lru) && 0 <= idx < |nodes| && idx !in lru
    ensures -1 <= head < |nodes|
    ensures var r := PushedNodes(nodes, head, idx);
            && LruList(r, idx, if tail == NIL then idx else tail, [idx] + lru)
            && SameData(nodes, r)
            && SameOutside(nodes, r, [idx] + lru)
  {
    assert head != NIL ==> head in lru;
    PushKeepsList(nodes, head, tail, lru, idx, Links(PushedNodes(nodes, head, idx), idx, if tail == NIL then idx else tail));
  }

  // ---------- Keys and hash chains ----------

  function KeyAt(nodes: seq<Node>, x: int): Key {
    if 0 <= x < |nodes| then nodes[x].key else IdempotencyKey(0, 0)
  }

  function KeysOf(nodes: seq<Node>, order: seq<int>): seq<Key> {
    seq(|order|, i requires 0 <= i < |order| => KeyAt(nodes, order[i]))
  }

  function BucketOf(hash: Key -> nat, mask: nat, k: Key): nat {
    And(hash(k), mask)
  }

  ghost predicate ChainsLinked(nodes: seq<Node>, buckets: seq<int>, chains: seq<seq<int>>) {
    |chains| == |buckets| && forall b :: 0 <= b < |buckets| ==> Linked(nodes, HashNextOf, buckets[b], chains[b])
  }

  ghost predicate ChainsMembers(nodes: seq<Node>, chains: seq<seq<int>>, lru: seq<int>, hash: Key -> nat, mask: nat) {
    && |chains| == mask + 1
    && forall b, x {:trigger x in chains[b]} :: 0 <= b < |chains| ==>
         (x in chains[b] <==> x in lru && BucketOf(hash, mask, KeyAt(nodes, x)) == b)
  }

  /** Chain `b` links exactly the cached nodes whose key falls into bucket `b`. */
  ghost predicate Hashed(nodes: seq<Node>, buckets: seq<int>, chains: seq<seq<int>>, lru: seq<int>, hash: Key -> nat, mask: nat) {
    ChainsLinked(nodes, buckets, chains) && ChainsMembers(nodes, chains, lru, hash, mask)
  }

  lemma ChainsLinkedFrame(a: seq<Node>, b: seq<Node>, buckets: seq<int>, chains: seq<seq<int>>)
    requires ChainsLinked(a, buckets, chains) && SameData(a, b)
    ensures ChainsLinked(b, buckets, chains)
  {
    forall i | 0 <= i < |buckets| ensures Linked(b, HashNextOf, buckets[i], chains[i]) {
      LinkedFrame(a, b, HashNextOf, buckets[i], chains[i]);
    }
  }

  lemma ChainsMembersFrame(a: seq<Node>, b: seq<Node>, chains: seq<seq<int>>, lru: seq<int>, order: seq<int>, hash: Key -> nat, mask: nat)
    requires ChainsMembers(a, chains, lru, hash, mask) && SameData(a, b)
    requires forall x :: x in lru <==> x in order
    ensures ChainsMembers(b, chains, order, hash, mask)
  {
    assert forall x :: KeyAt(b, x) == KeyAt(a, x);
  }

  lemma HashedFrame(a: seq<Node>, b: seq<Node>, buckets: seq<int>, chains: seq<seq<int>>,
                    lru: seq<int>, order: seq<int>, hash: Key -> nat, mask: nat)
    requires Hashed(a, buckets, chains, lru, hash, mask) && SameData(a, b)
    requires forall x :: x in lru <==> x in order
    ensures Hashed(b, buckets, chains, order, hash, mask)
  {
    ChainsLinkedFrame(a, b, buckets, chains);
    ChainsMembersFrame(a, b, chains, lru, order, hash, mask);
  }

  lemma KeysSame(a: seq<Node>, b: seq<Node>, order: seq<int>)
    requires SameData(a, b)
    ensures KeysOf(a, order) == KeysOf(b, order)
  {
  }

  lemma InBucketRange(hash: Key -> nat, mask: nat, k: Key)
    requires IsPow2(mask + 1)
    ensures BucketOf(hash, mask, k) == hash(k) % (mask + 1) <= mask
  {
    Masked(hash(k), mask + 1);
  }

  /** The two updates made when the node after `before` is taken out of a chain. */
  function CutNodes(nodes: seq<Node>, before: int, idx: int): seq<Node>
    requires 0 <= idx < |nodes| && before < |nodes|
  {
    var n1 := if 0 <= before then nodes[before := nodes[before].(hashNext := nodes[idx].hashNext)] else nodes;
    n1[idx := n1[idx].(hashNext := NIL)]
  }

  lemma CutLinked(nodes: seq<Node>, head: int, chain: seq<int>, q: nat)
    requires Linked(nodes, HashNextOf, head, chain) && q < |chain|
    ensures Linked(CutNodes(nodes, At(chain, q - 1), chain[q]), HashNextOf, if q == 0 then At(chain, 1) else head, Drop(chain, q))
  {
    hide BucketOf, Distinct, CutNodes;
    var rest := Drop(chain, q);
    var r := CutNodes(nodes, At(chain, q - 1), chain[q]);
    DropUnique(chain, q);
    DropAt(chain, q, 0);
    forall i | 0 <= i < |rest| ensures 0 <= rest[i] < |r| && HashNextOf(r[rest[i]]) == At(rest, i + 1) {
      CutAt(nodes, head, chain, q, i);
    }
  }

  lemma CutNodesAt(nodes: seq<Node>, before: int, idx: int, x: int)
    requires 0 <= idx < |nodes| && -1 <= before < |nodes| && before != idx && 0 <= x < |nodes| && x != idx
    ensures |CutNodes(nodes, before, idx)| == |nodes|
    ensures CutNodes(nodes, before, idx)[x].hashNext == nodes[if x == before then idx else x].hashNext
  {
  }

  lemma CutAt(nodes: seq<Node>, head: int, chain: seq<int>, q: nat, i: nat)
    requires Linked(nodes, HashNextOf, head, chain) && q < |chain| && i < |chain| - 1
    ensures var rest, r := Drop(chain, q), CutNodes(nodes, At(chain, q - 1), chain[q]);
            0 <= rest[i] < |r| && HashNextOf(r[rest[i]]) == At(rest, i + 1)
  {
    hide CutNodes, At, Drop;
    var j := if i < q then i else i + 1;
    ChainNeighbours(chain, q, j);
    assert Drop(chain, q)[i] == chain[j] by {
      DropIndex(chain, q, i);
    }
    DropAt(chain, q, i + 1);
    CutNodesAt(nodes, At(chain, q - 1), chain[q], chain[j]);
  }

  lemma DropIndex(s: seq<int>, p: nat, i: nat)
    requires p < |s| && i < |s| - 1
    ensures |Drop(s, p)| == |s| - 1 && Drop(s, p)[i] == s[if i < p then i else i + 1]
  {
  }

  /** In a list without repetitions an element is the predecessor of another exactly by position. */
  lemma ChainNeighbours(chain: seq<int>, q: nat, j: nat)
    requires Distinct(chain) && q < |chain| && j < |chain| && j != q
    requires forall i :: 0 <= i < |chain| ==> chain[i] >= 0
    ensures chain[j] != chain[q] && At(chain, q - 1) != chain[q]
    ensures chain[j] == At(chain, q - 1) <==> j == q - 1
    ensures At(chain, q - 1) == NIL || (q > 0 && At(chain, q - 1) == chain[q - 1])
  {
  }

  lemma CutElsewhere(nodes: seq<Node>, before: int, idx: int, head: int, chain: seq<int>)
    requires Linked(nodes, HashNextOf, head, chain)
    requires 0 <= idx < |nodes| && -1 <= before < |nodes| && idx !in chain && before !in chain
    ensures Linked(CutNodes(nodes, before, idx), HashNextOf, head, chain)
  {
    var r := CutNodes(nodes, before, idx);
    forall i | 0 <= i < |chain| ensures r[chain[i]].hashNext == nodes[chain[i]].hashNext {
      assert chain[i] in chain;
    }
    LinkedFrame(nodes, r, HashNextOf, head, chain);
  }

  ghost predicate SameRecency(a: seq<Node>, b: seq<Node>) {
    |a| == |b| && forall i :: 0 <= i < |a| ==> b[i] == a[i].(hashNext := b[i].hashNext)
  }

  lemma CutRange(nodes: seq<Node>, head: int, chain: seq<int>, q: nat)
    requires Linked(nodes, HashNextOf, head, chain) && q < |chain|
    ensures -1 <= At(chain, q - 1) < |nodes| && 0 <= chain[q] < |nodes|
    ensures SameRecency(nodes, CutNodes(nodes, At(chain, q - 1), chain[q]))
  {
  }

  /** Chain heads after the node at position `q` of chain `b` has been taken out. */
  function CutHeads(buckets: seq<int>, chain: seq<int>, b: nat, q: nat): seq<int>
    requires b < |buckets|
  {
    if q == 0 then buckets[b := At(chain, 1)] else buckets
  }

  lemma RemovedChains(nodes: seq<Node>, buckets: seq<int>, chains: seq<seq<int>>, lru: seq<int>, hash: Key -> nat, mask: nat,
                      b: nat, q: nat, cut: seq<Node>, heads: seq<int>, lists: seq<seq<int>>)
    requires Hashed(nodes, buckets, chains, lru, hash, mask) && b < |buckets| && q < |chains[b]|
    requires At(chains[b], q - 1) < |nodes| && 0 <= chains[b][q] < |nodes|
    requires cut == CutNodes(nodes, At(chains[b], q - 1), chains[b][q])
    requires heads == CutHeads(buckets, chains[b], b, q) && lists == chains[b := Drop(chains[b], q)]
    ensures ChainsLinked(cut, heads, lists)
  {
    var chain := chains[b];
    var before, idx := At(chain, q - 1), chain[q];
    assert idx in chain && (before != NIL ==> before in chain);
    forall c | 0 <= c < |heads| ensures Linked(cut, HashNextOf, heads[c], lists[c]) {
      if c == b {
        CutLinked(nodes, buckets[b], chain, q);
      } else {
        ChainsApart(nodes, chains, lru, hash, mask, b, c);
        CutElsewhere(nodes, before, idx, buckets[c], chains[c]);
      }
    }
  }

  lemma ChainsApart(nodes: seq<Node>, chains: seq<seq<int>>, lru: seq<int>, hash: Key -> nat, mask: nat, b: nat, c: nat)
    requires ChainsMembers(nodes, chains, lru, hash, mask) && b < |chains| && c < |chains| && b != c
    ensures forall x :: x in chains[b] ==> x !in chains[c]
  {
  }

  lemma RemovedMembers(nodes: seq<Node>, cut: seq<Node>, chains: seq<seq<int>>, lru: seq<int>, hash: Key -> nat, mask: nat,
                       b: nat, q: nat, p: nat, lists: seq<seq<int>>, rest: seq<int>)
    requires ChainsMembers(nodes, chains, lru, hash, mask) && SameRecency(nodes, cut)
    requires b < |chains| && q < |chains[b]| && p < |lru| && lru[p] == chains[b][q] && Distinct(lru) && Distinct(chains[b])
    requires lists == chains[b := Drop(chains[b], q)] && rest == Drop(lru, p)
    ensures ChainsMembers(cut, lists, rest, hash, mask)
  {
    DropUnique(chains[b], q);
    DropUnique(lru, p);
    assert chains[b][q] in chains[b];
    forall c, x | 0 <= c < |lists|
      ensures x in lists[c] <==> x in rest && BucketOf(hash, mask, KeyAt(cut, x)) == c
    {
      assert x in chains[c] <==> x in lru && BucketOf(hash, mask, KeyAt(nodes, x)) == c;
    }
  }

  /** The update made when a free node takes a key and goes in front of its chain. */
  function Filled(nodes: seq<Node>, idx: int, key: Key, next: int): seq<Node>
    requires 0 <= idx < |nodes|
  {
    nodes[idx := nodes[idx].(key := key, occupied := true, hashNext := next)]
  }

  lemma AddedChains(nodes: seq<Node>, buckets: seq<int>, chains: seq<seq<int>>, lru: seq<int>, hash: Key -> nat, mask: nat, idx: int, key: Key)
    requires Hashed(nodes, buckets, chains, lru, hash, mask) && 0 <= idx < |nodes| && idx !in lru
    requires BucketOf(hash, mask, key) <= mask
    ensures var b := BucketOf(hash, mask, key);
            Hashed(Filled(nodes, idx, key, buckets[b]), buckets[b := idx], chains[b := [idx] + chains[b]], [idx] + lru, hash, mask)
  {
    var b := BucketOf(hash, mask, key);
    var r := Filled(nodes, idx, key, buckets[b]);
    var heads, lists := buckets[b := idx], chains[b := [idx] + chains[b]];
    forall c | 0 <= c < |heads| ensures Linked(r, HashNextOf, heads[c], lists[c]) {
      assert idx !in chains[c];
      if c == b {
        AddedLinked(nodes, buckets[b], chains[b], idx, key);
      } else {
        forall i | 0 <= i < |chains[c]| ensures r[chains[c][i]].hashNext == nodes[chains[c][i]].hashNext {
          assert chains[c][i] in chains[c];
        }
        LinkedFrame(nodes, r, HashNextOf, buckets[c], chains[c]);
      }
    }
    forall c, x | 0 <= c < |lists|
      ensures x in lists[c] <==> x in [idx] + lru && BucketOf(hash, mask, KeyAt(r, x)) == c
    {
      assert x in chains[c] <==> x in lru && BucketOf(hash, mask, KeyAt(nodes, x)) == c;
    }
  }

  lemma AddedLinked(nodes: seq<Node>, head: int, chain: seq<int>, idx: int, key: Key)
    requires Linked(nodes, HashNextOf, head, chain) && 0 <= idx < |nodes| && idx !in chain
    ensures Linked(Filled(nodes, idx, key, head), HashNextOf, idx, [idx] + chain)
  {
    var all := [idx] + chain;
    var r := Filled(nodes, idx, key, head);
    forall i | 0 <= i < |all| ensures 0 <= all[i] < |r| && r[all[i]].hashNext == At(all, i + 1) {
      if i > 0 {
        assert all[i] == chain[i - 1] && chain[i - 1] in chain;
      }
    }
  }

  /** A key that is not in its own chain is not cached at all. */
  lemma NotCached(nodes: seq<Node>, chains: seq<seq<int>>, lru: seq<int>, hash: Key -> nat, mask: nat, key: Key)
    requires ChainsMembers(nodes, chains, lru, hash, mask) && BucketOf(hash, mask, key) <= mask
    requires forall x :: x in chains[BucketOf(hash, mask, key)] ==> KeyAt(nodes, x) != key
    ensures key !in KeysOf(nodes, lru)
  {
    forall i | 0 <= i < |lru| ensures KeysOf(nodes, lru)[i] != key {
      assert lru[i] in lru;
      assert lru[i] in chains[BucketOf(hash, mask, key)] || KeyAt(nodes, lru[i]) != key;
    }
  }

  lemma MovedKeys(nodes: seq<Node>, lru: seq<int>, p: nat)
    requires Distinct(KeysOf(nodes, lru)) && p < |lru|
    ensures KeysOf(nodes, [lru[p]] + Drop(lru, p)) == [KeyAt(nodes, lru[p])] + Remove(KeysOf(nodes, lru), KeyAt(nodes, lru[p]))
  {
    var keys := KeysOf(nodes, lru);
    RemoveAt(keys, p);
    assert KeysOf(nodes, [lru[p]] + Drop(lru, p)) == [keys[p]] + (keys[..p] + keys[p + 1..]);
  }

  lemma MovedUnique(keys: seq<Key>, k: Key)
    requires Distinct(keys)
    ensures Distinct([k] + Remove(keys, k))
  {
    RemoveUnique(keys, k);
    var rest := Remove(keys, k);
    forall j | 0 <= j < |rest| ensures rest[j] != k {
      assert rest[j] in rest;
    }
  }

  // ---------- The cache object ----------

  /** The fields of the cache and its three lists. */
  datatype View = View(nodes: seq<Node>, buckets: seq<int>, lruHead: int, lruTail: int, freeHead: int, size: nat,
                       lru: seq<int>, free: seq<int>, chains: seq<seq<int>>)

  /** The recency list and the free list share the nodes among them, `spare` excepted. */
  ghost predicate Shared(v: View, spare: int) {
    && (forall x :: x in v.lru ==> x !in v.free)
    && |v.lru| + |v.free| + (if spare == NIL then 0 else 1) == |v.nodes|
    && v.size == |v.lru| + (if spare == NIL then 0 else 1)
    && (spare != NIL ==> 0 <= spare < |v.nodes| && spare !in v.lru && spare !in v.free)
  }

  ghost predicate Occupied(nodes: seq<Node>, lru: seq<int>) {
    forall i :: 0 <= i < |lru| ==> 0 <= lru[i] < |nodes| && nodes[lru[i]].occupied
  }

  ghost predicate Consistent(v: View, hash: Key -> nat, mask: nat, spare: int) {
    && IsPow2(mask + 1)
    && LruList(v.nodes, v.lruHead, v.lruTail, v.lru)
    && Linked(v.nodes, NextOf, v.freeHead, v.free)
    && Shared(v, spare)
    && Occupied(v.nodes, v.lru)
    && Distinct(KeysOf(v.nodes, v.lru))
    && Hashed(v.nodes, v.buckets, v.chains, v.lru, hash, mask)
  }

  lemma OccupiedFrame(a: seq<Node>, b: seq<Node>, lru: seq<int>, order: seq<int>)
    requires Occupied(a, lru) && SameData(a, b)
    requires forall x :: x in order ==> x in lru
    ensures Occupied(b, order)
  {
    forall i | 0 <= i < |order| ensures 0 <= order[i] < |b| && b[order[i]].occupied {
      assert order[i] in lru;
    }
  }

  lemma FreeFrame(a: seq<Node>, b: seq<Node>, freeHead: int, free: seq<int>, changed: seq<int>)
    requires Linked(a, NextOf, freeHead, free) && SameOutside(a, b, changed)
    requires forall x :: x in changed ==> x !in free
    ensures Linked(b, NextOf, freeHead, free)
  {
    forall i | 0 <= i < |free| ensures b[free[i]].next == a[free[i]].next {
      assert free[i] in free;
    }
    LinkedFrame(a, b, NextOf, freeHead, free);
  }

  lemma RefreshConsistent(v: View, w: View, middle: seq<Node>, hash: Key -> nat, mask: nat, p: nat)
    requires Consistent(v, hash, mask, NIL) && p < |v.lru|
    requires w == v.(nodes := w.nodes, lruHead := w.lruHead, lruTail := w.lruTail, lru := [v.lru[p]] + Drop(v.lru, p))
    requires LruList(w.nodes, w.lruHead, w.lruTail, w.lru)
    requires SameData(v.nodes, middle) && SameOutside(v.nodes, middle, v.lru)
    requires SameData(middle, w.nodes) && SameOutside(middle, w.nodes, w.lru)
    ensures Consistent(w, hash, mask, NIL)
    ensures KeysOf(w.nodes, w.lru) == [KeyAt(v.nodes, v.lru[p])] + Remove(KeysOf(v.nodes, v.lru), KeyAt(v.nodes, v.lru[p]))
  {
    DropUnique(v.lru, p);
    assert forall x :: x in w.lru <==> x in v.lru;
    FreeFrame(v.nodes, middle, v.freeHead, v.free, v.lru);
    FreeFrame(middle, w.nodes, v.freeHead, v.free, w.lru);
    OccupiedFrame(v.nodes, w.nodes, v.lru, w.lru);
    HashedFrame(v.nodes, w.nodes, v.buckets, v.chains, v.lru, w.lru, hash, mask);
    MovedKeys(v.nodes, v.lru, p);
    KeysSame(v.nodes, w.nodes, w.lru);
    MovedUnique(KeysOf(v.nodes, v.lru), KeyAt(v.nodes, v.lru[p]));
  }

  lemma LruFrame(a: seq<Node>, b: seq<Node>, head: int, tail: int, lru: seq<int>)
    requires LruList(a, head, tail, lru) && |a| == |b|
    requires forall i :: 0 <= i < |lru| ==> b[lru[i]].next == a[lru[i]].next && b[lru[i]].prev == a[lru[i]].prev
    ensures LruList(b, head, tail, lru)
  {
    LinkedFrame(a, b, NextOf, head, lru);
  }

  lemma TakenConsistent(v: View, hash: Key -> nat, mask: nat)
    requires Consistent(v, hash, mask, NIL) && v.free != []
    ensures 0 <= v.freeHead < |v.nodes| && v.freeHead == v.free[0]
    ensures var w := v.(nodes := v.nodes[v.freeHead := v.nodes[v.freeHead].(next := NIL)],
                        freeHead := v.nodes[v.freeHead].next, size := v.size + 1, free := v.free[1..]);
            Consistent(w, hash, mask, v.freeHead) && KeysOf(w.nodes, w.lru) == KeysOf(v.nodes, v.lru)
  {
    var idx := v.freeHead;
    var nodes := v.nodes[idx := v.nodes[idx].(next := NIL)];
    assert idx in v.free;
    forall i | 0 <= i < |v.lru| ensures nodes[v.lru[i]] == v.nodes[v.lru[i]] {
      assert v.lru[i] in v.lru;
    }
    LruFrame(v.nodes, nodes, v.lruHead, v.lruTail, v.lru);
    RestLinked(v.nodes, nodes, v.freeHead, v.free);
    OccupiedFrame(v.nodes, nodes, v.lru, v.lru);
    HashedFrame(v.nodes, nodes, v.buckets, v.chains, v.lru, v.lru, hash, mask);
    KeysSame(v.nodes, nodes, v.lru);
  }

  lemma RestLinked(a: seq<Node>, b: seq<Node>, head: int, order: seq<int>)
    requires Linked(a, NextOf, head, order) && order != [] && |a| == |b| && b == a[order[0] := b[order[0]]]
    ensures Linked(b, NextOf, a[order[0]].next, order[1..])
    ensures order[0] !in order[1..]
  {
    var rest := order[1..];
    forall i | 0 <= i < |rest| ensures 0 <= rest[i] < |b| && b[rest[i]].next == At(rest, i + 1) {
      assert rest[i] == order[i + 1];
    }
  }

  lemma EvictedConsistent(v: View, w: View, cut: seq<Node>, hash: Key -> nat, mask: nat, b: nat, q: nat)
    requires Consistent(v, hash, mask, NIL) && v.free == [] && v.lru != []
    requires b < |v.chains| && q < |v.chains[b]| && v.chains[b][q] == v.lruTail == v.lru[|v.lru| - 1]
    requires At(v.chains[b], q - 1) < |v.nodes| && 0 <= v.lruTail < |v.nodes|
    requires cut == CutNodes(v.nodes, At(v.chains[b], q - 1), v.lruTail)
    requires w == v.(nodes := w.nodes, lruHead := w.lruHead, lruTail := w.lruTail, lru := Drop(v.lru, |v.lru| - 1),
                     buckets := CutHeads(v.buckets, v.chains[b], b, q), chains := v.chains[b := Drop(v.chains[b], q)])
    requires LruList(w.nodes, w.lruHead, w.lruTail, w.lru) && SameData(cut, w.nodes)
    ensures Consistent(w, hash, mask, v.lruTail)
    ensures KeysOf(w.nodes, w.lru) == KeysOf(v.nodes, v.lru)[..|v.lru| - 1]
  {
    hide BucketOf, CutNodes;
    var last := |v.lru| - 1;
    assert Linked(v.nodes, HashNextOf, v.buckets[b], v.chains[b]);
    CutRange(v.nodes, v.buckets[b], v.chains[b], q);
    assert Hashed(w.nodes, w.buckets, w.chains, w.lru, hash, mask) by {
      RemovedChains(v.nodes, v.buckets, v.chains, v.lru, hash, mask, b, q, cut, w.buckets, w.chains);
      RemovedMembers(v.nodes, cut, v.chains, v.lru, hash, mask, b, q, last, w.chains, w.lru);
      HashedFrame(cut, w.nodes, w.buckets, w.chains, w.lru, w.lru, hash, mask);
    }
    assert Shared(w, v.lruTail) by {
      DropUnique(v.lru, last);
      assert v.lruTail in v.lru;
    }
    assert w.lru == v.lru[..last];
    EvictedKeys(v.nodes, cut, w.nodes, v.lru);
  }

  lemma EvictedKeys(a: seq<Node>, cut: seq<Node>, b: seq<Node>, lru: seq<int>)
    requires SameRecency(a, cut) && SameData(cut, b) && lru != [] && Occupied(a, lru) && Distinct(KeysOf(a, lru))
    ensures Occupied(b, lru[..|lru| - 1])
    ensures KeysOf(b, lru[..|lru| - 1]) == KeysOf(a, lru)[..|lru| - 1]
    ensures Distinct(KeysOf(b, lru[..|lru| - 1]))
  {
    assert forall x :: KeyAt(b, x) == KeyAt(a, x);
  }

  lemma PlacedConsistent(v: View, filled: seq<Node>, w: View, hash: Key -> nat, mask: nat, idx: int, key: Key)
    requires idx != NIL && Consistent(v, hash, mask, idx) && key !in KeysOf(v.nodes, v.lru)
    requires BucketOf(hash, mask, key) <= mask
    requires filled == Filled(v.nodes, idx, key, v.buckets[BucketOf(hash, mask, key)])
    requires var b := BucketOf(hash, mask, key);
             w == v.(nodes := w.nodes, lruHead := w.lruHead, lruTail := w.lruTail, lru := [idx] + v.lru,
                     buckets := v.buckets[b := idx], chains := v.chains[b := [idx] + v.chains[b]])
    requires LruList(w.nodes, w.lruHead, w.lruTail, w.lru)
    requires SameData(filled, w.nodes) && SameOutside(filled, w.nodes, w.lru)
    ensures Consistent(w, hash, mask, NIL)
    ensures KeysOf(w.nodes, w.lru) == [key] + KeysOf(v.nodes, v.lru)
  {
    AddedChains(v.nodes, v.buckets, v.chains, v.lru, hash, mask, idx, key);
    HashedFrame(filled, w.nodes, w.buckets, w.chains, w.lru, w.lru, hash, mask);
    FreeFrame(v.nodes, filled, v.freeHead, v.free, [idx]);
    FreeFrame(filled, w.nodes, v.freeHead, v.free, w.lru);
    PlacedKeys(v.nodes, filled, w.nodes, v.lru, idx, key);
  }

  lemma PlacedKeys(a: seq<Node>, filled: seq<Node>, b: seq<Node>, lru: seq<int>, idx: int, key: Key)
    requires 0 <= idx < |a| && idx !in lru && Occupied(a, lru) && Distinct(KeysOf(a, lru)) && key !in KeysOf(a, lru)
    requires exists next :: filled == Filled(a, idx, key, next)
    requires SameData(filled, b)
    ensures Occupied(b, [idx] + lru)
    ensures KeysOf(b, [idx] + lru) == [key] + KeysOf(a, lru)
    ensures Distinct(KeysOf(b, [idx] + lru))
  {
    var all := [idx] + lru;
    forall i | 1 <= i < |all| ensures all[i] != idx && all[i] == lru[i - 1] {
      assert lru[i - 1] in lru;
    }
    forall i | 0 <= i < |lru| ensures KeysOf(a, lru)[i] != key {
      assert KeysOf(a, lru)[i] in KeysOf(a, lru);
    }
  }

  class IdempotencyCache {
    const hash: Key -> nat
    const mask: nat
    var nodes: seq<Node>
    var buckets: seq<int>
    var lruHead: int
    var lruTail: int
    var freeHead: int
    var size: nat

    ghost var lru: seq<int>
    ghost var free: seq<int>
    ghost var chains: seq<seq<int>>

    /** The lists are consistent and together hold every node except `spare`, if that is not NIL. */
    ghost predicate Holds(spare: int)
      reads this
    {
      Consistent(Fields(), hash, mask, spare)
    }

    ghost function Fields(): View
      reads this
    {
      View(nodes, buckets, lruHead, lruTail, freeHead, size, lru, free, chains)
    }

    ghost predicate Valid()
      reads this
    {
      |nodes| >= 1 && Holds(NIL)
    }

    /** The cached keys, most recently presented first. */
    ghost function Keys(): seq<Key>
      reads this
    {
      KeysOf(nodes, lru)
    }

    /** An empty cache of at least one node; node numbers are 32-bit. */
    constructor (capacity: nat, hash: Key -> nat)
      requires capacity < 0x8000_0000
      ensures Valid() && Keys() == [] && size == 0 && this.hash == hash
      ensures |nodes| == if capacity == 0 then 1 else capacity
    {
      hide Consistent;
      var n := if capacity == 0 then 1 else capacity;
      var cells: seq<Node> := [];
      var i := 0;
      while i < n
        invariant 0 <= i <= n && |cells| == i
        invariant forall j :: 0 <= j < i ==> cells[j].next == if j + 1 < n then j + 1 else NIL
      {
        cells := cells + [Node(IdempotencyKey(0, 0), NIL, if i + 1 < n then i + 1 else NIL, NIL, false)];
        i := i + 1;
      }
      var count := BitCeil(Max(2 * n, 2));
      this.hash, mask := hash, count - 1;
      nodes, buckets, lruHead, lruTail, freeHead, size := cells, seq(count, _ => NIL), NIL, NIL, 0, 0;
      lru, free, chains := [], seq(n, j => j), seq(count, _ => []);
      EmptyConsistent(cells, hash, count);
    }

    method UnlinkLru(idx: int)
      requires 0 <= idx < |nodes| && -1 <= nodes[idx].prev < |nodes| && -1 <= nodes[idx].next < |nodes|
      modifies this`nodes, this`lruHead, this`lruTail
      ensures Links(nodes, lruHead, lruTail) == old(UnlinkedLinks(nodes, lruHead, lruTail, idx))
    {
      var before, after := nodes[idx].prev, nodes[idx].next;
      if before != NIL {
        nodes := nodes[before := nodes[before].(next := after)];
      } else {
        lruHead := after;
      }
      if after != NIL {
        nodes := nodes[after := nodes[after].(prev := before)];
      } else {
        lruTail := before;
      }
      nodes := nodes[idx := nodes[idx].(prev := NIL, next := NIL)];
    }

    /** Takes the node at position `p` out of the recency list. */
    method Unlink(idx: int, ghost p: nat)
      requires LruList(nodes, lruHead, lruTail, lru) && p < |lru| && lru[p] == idx
      modifies this`nodes, this`lruHead, this`lruTail, this`lru
      ensures LruList(nodes, lruHead, lruTail, lru) && lru == Drop(old(lru), p)
      ensures SameData(old(nodes), nodes) && SameOutside(old(nodes), nodes, old(lru))
    {
      UnlinkCorrect(nodes, lruHead, lruTail, lru, p);
      UnlinkLru(idx);
      lru := Drop(lru, p);
    }

    method PushFrontLru(idx: int)
      requires 0 <= idx < |nodes| && -1 <= lruHead < |nodes|
      modifies this`nodes, this`lruHead, this`lruTail
      ensures nodes == PushedNodes(old(nodes), old(lruHead), idx)
      ensures lruHead == idx && lruTail == if old(lruTail) == NIL then idx else old(lruTail)
    {
      nodes := nodes[idx := nodes[idx].(prev := NIL, next := lruHead)];
      if lruHead != NIL {
        nodes := nodes[lruHead := nodes[lruHead].(prev := idx)];
      }
      lruHead := idx;
      if lruTail == NIL {
        lruTail := idx;
      }
    }

    /** Puts a node that is not in the recency list in front of it. */
    method PushFront(idx: int)
      requires LruList(nodes, lruHead, lruTail, lru) && 0 <= idx < |nodes| && idx !in lru
      modifies this`nodes, this`lruHead, this`lruTail, this`lru
      ensures LruList(nodes, lruHead, lruTail, lru) && lru == [idx] + old(lru)
      ensures SameData(old(nodes), nodes) && SameOutside(old(nodes), nodes, lru)
    {
      PushCorrect(nodes, lruHead, lruTail, lru, idx);
      PushFrontLru(idx);
      lru := [idx] + lru;
    }

    /** Walks the chain of the node's bucket up to the node and takes it out. */
    method RemoveFromBucket(idx: int, ghost b: nat, ghost q: nat)
      requires 0 <= idx < |nodes| && |buckets| == mask + 1 == |chains| && ChainsLinked(nodes, buckets, chains)
      requires b == BucketOf(hash, mask, nodes[idx].key) < |buckets|
      requires q < |chains[b]| && chains[b][q] == idx
      modifies this`nodes, this`buckets, this`chains
      ensures At(old(chains)[b], q - 1) < |old(nodes)|
      ensures nodes == CutNodes(old(nodes), At(old(chains)[b], q - 1), idx)
      ensures buckets == CutHeads(old(buckets), old(chains)[b], b, q)
      ensures chains == old(chains)[b := Drop(old(chains)[b], q)]
    {
      var bucket := BucketOf(hash, mask, nodes[idx].key);
      var cur, prev := buckets[bucket], NIL;
      ghost var chain := chains[b];
      ghost var j := 0;
      assert Linked(nodes, HashNextOf, buckets[b], chain);
      while cur != NIL && cur != idx
        invariant 0 <= j <= q && cur == At(chain, j) && prev == At(chain, j - 1)
        decreases q - j
      {
        prev := cur;
        cur := nodes[cur].hashNext;
        j := j + 1;
      }
      if cur == idx {
        assert j == q;
        if prev == NIL {
          buckets := buckets[bucket := nodes[cur].hashNext];
        } else {
          nodes := nodes[prev := nodes[prev].(hashNext := nodes[cur].hashNext)];
        }
        nodes := nodes[cur := nodes[cur].(hashNext := NIL)];
      }
      chains := chains[b := Drop(chains[b], q)];
    }

    /** Walks one chain; finds the key if it is cached anywhere. */
    method Find(key: Key) returns (cur: int, ghost p: nat)
      requires Holds(NIL)
      ensures cur == NIL ==> key !in Keys()
      ensures cur != NIL ==> p < |lru| && lru[p] == cur && nodes[cur].key == key
    {
      InBucketRange(hash, mask, key);
      var bucket := BucketOf(hash, mask, key);
      cur := buckets[bucket];
      p := 0;
      ghost var chain := chains[bucket];
      ghost var j := 0;
      assert Linked(nodes, HashNextOf, buckets[bucket], chain);
      while cur != NIL
        invariant 0 <= j <= |chain| && cur == At(chain, j)
        invariant forall i :: 0 <= i < j ==> nodes[chain[i]].key != key
        decreases |chain| - j
      {
        assert cur in chain;
        if nodes[cur].occupied && nodes[cur].key == key {
          p :| p < |lru| && lru[p] == cur;
          return;
        }
        j := j + 1;
        cur := nodes[cur].hashNext;
      }
      forall x | x in chain ensures KeyAt(nodes, x) != key {
      }
      NotCached(nodes, chains, lru, hash, mask, key);
    }

    method MoveToFront(cur: int, ghost p: nat) returns (ghost middle: seq<Node>)
      requires LruList(nodes, lruHead, lruTail, lru) && p < |lru| && lru[p] == cur
      modifies this`nodes, this`lruHead, this`lruTail, this`lru
      ensures LruList(nodes, lruHead, lruTail, lru) && lru == [cur] + Drop(old(lru), p)
      ensures SameData(old(nodes), middle) && SameOutside(old(nodes), middle, old(lru))
      ensures SameData(middle, nodes) && SameOutside(middle, nodes, lru)
    {
      DropUnique(lru, p);
      Unlink(cur, p);
      middle := nodes;
      PushFront(cur);
    }

    /** A hit: the node moves to the front. */
    method Refresh(cur: int, ghost p: nat)
      requires Holds(NIL) && p < |lru| && lru[p] == cur
      modifies this`nodes, this`lruHead, this`lruTail, this`lru
      ensures Holds(NIL) && |nodes| == |old(nodes)|
      ensures Keys() == [old(nodes)[cur].key] + Remove(old(Keys()), old(nodes)[cur].key)
    {
      ghost var v := Fields();
      ghost var middle := MoveToFront(cur, p);
      RefreshConsistent(v, Fields(), middle, hash, mask, p);
    }

    /** Takes the first free node. */
    method TakeFree() returns (idx: int)
      requires Holds(NIL) && free != []
      modifies this`nodes, this`freeHead, this`size, this`free
      ensures idx != NIL && Holds(idx) && |nodes| == |old(nodes)| && Keys() == old(Keys())
    {
      TakenConsistent(Fields(), hash, mask);
      idx := freeHead;
      freeHead := nodes[idx].next;
      nodes := nodes[idx := nodes[idx].(next := NIL)];
      size := size + 1;
      free := free[1..];
    }

    /** Frees the node of the least recently presented key. */
    method Evict() returns (idx: int)
      requires Holds(NIL) && free == [] && |nodes| >= 1
      modifies this`nodes, this`buckets, this`lruHead, this`lruTail, this`lru, this`chains
      ensures idx != NIL && Holds(idx) && |nodes| == |old(nodes)|
      ensures |old(Keys())| == |nodes| && Keys() == old(Keys())[..|nodes| - 1]
    {
      hide Consistent, CutNodes, CutHeads, BucketOf, LruList, ChainsLinked;
      ghost var v := Fields();
      ghost var b, q := EvictReady(v, hash, mask);
      idx := lruTail;
      ghost var cut := Detach(idx, b, q);
      EvictedConsistent(v, Fields(), cut, hash, mask, b, q);
    }

    method Detach(idx: int, ghost b: nat, ghost q: nat) returns (ghost cut: seq<Node>)
      requires LruList(nodes, lruHead, lruTail, lru) && lru != [] && idx == lru[|lru| - 1]
      requires 0 <= idx < |nodes| && |buckets| == mask + 1 == |chains| && ChainsLinked(nodes, buckets, chains)
      requires b == BucketOf(hash, mask, nodes[idx].key) < |buckets|
      requires q < |chains[b]| && chains[b][q] == idx && At(chains[b], q - 1) < |nodes|
      requires SameRecency(nodes, CutNodes(nodes, At(chains[b], q - 1), idx))
      modifies this`nodes, this`buckets, this`lruHead, this`lruTail, this`lru, this`chains
      ensures cut == CutNodes(old(nodes), At(old(chains)[b], q - 1), idx)
      ensures buckets == CutHeads(old(buckets), old(chains)[b], b, q)
      ensures chains == old(chains)[b := Drop(old(chains)[b], q)]
      ensures lru == Drop(old(lru), |old(lru)| - 1)
      ensures LruList(nodes, lruHead, lruTail, lru) && SameData(cut, nodes)
    {
      ghost var before := nodes;
      RemoveFromBucket(idx, b, q);
      cut := nodes;
      LruFrame(before, nodes, lruHead, lruTail, lru);
      Unlink(idx, |lru| - 1);
    }

    /** Gives a spare node the key, at the front of its chain and of the recency list. */
    method Place(idx: int, key: Key)
      requires idx != NIL && Holds(idx) && key !in Keys()
      modifies this`nodes, this`buckets, this`lruHead, this`lruTail, this`lru, this`chains
      ensures Holds(NIL) && |nodes| == |old(nodes)| && Keys() == [key] + old(Keys())
    {
      ghost var v := Fields();
      InBucketRange(hash, mask, key);
      ghost var filled := Attach(idx, key);
      PlacedConsistent(v, filled, Fields(), hash, mask, idx, key);
    }

    method Attach(idx: int, key: Key) returns (ghost filled: seq<Node>)
      requires LruList(nodes, lruHead, lruTail, lru) && 0 <= idx < |nodes| && idx !in lru
      requires BucketOf(hash, mask, key) < |buckets| == |chains|
      modifies this`nodes, this`buckets, this`lruHead, this`lruTail, this`lru, this`chains
      ensures filled == Filled(old(nodes), idx, key, old(buckets)[BucketOf(hash, mask, key)])
      ensures buckets == old(buckets)[BucketOf(hash, mask, key) := idx]
      ensures chains == old(chains)[BucketOf(hash, mask, key) := [idx] + old(chains)[BucketOf(hash, mask, key)]]
      ensures LruList(nodes, lruHead, lruTail, lru) && lru == [idx] + old(lru)
      ensures SameData(filled, nodes) && SameOutside(filled, nodes, lru)
    {
      ghost var before := nodes;
      var bucket := BucketOf(hash, mask, key);
      nodes := nodes[idx := nodes[idx].(key := key, occupied := true, hashNext := buckets[bucket])];
      buckets := buckets[bucket := idx];
      chains := chains[bucket := [idx] + chains[bucket]];
      filled := nodes;
      LruFrame(before, nodes, lruHead, lruTail, lru);
      PushFront(idx);
    }

    /** A presented key is a duplicate exactly if it is cached; either way it is now the most
        recent, and no more keys are kept than there are nodes. */
    method CheckAndInsert(key: Key) returns (duplicate: bool)
      requires Valid()
      modifies this`nodes, this`buckets, this`lruHead, this`lruTail, this`freeHead, this`size, this`lru, this`free, this`chains
      ensures Valid() && |nodes| == |old(nodes)|
      ensures duplicate <==> key in old(Keys())
      ensures Keys() == Touch(|nodes|, old(Keys()), key)
      ensures size == |Keys()| <= |nodes|
    {
      var cur; ghost var p;
      cur, p := Find(key);
      duplicate := cur != NIL;
      if duplicate {
        Hit(cur, p, key);
      } else {
        Insert(key);
      }
    }

    method Hit(cur: int, ghost p: nat, key: Key)
      requires Holds(NIL) && p < |lru| && lru[p] == cur && nodes[cur].key == key
      modifies this`nodes, this`lruHead, this`lruTail, this`lru
      ensures Holds(NIL) && |nodes| == |old(nodes)|
      ensures key in old(Keys()) && Keys() == Touch(|nodes|, old(Keys()), key)
    {
      HitTouch(Keys(), p, |nodes|);
      assert Keys()[p] == key;
      Refresh(cur, p);
    }

    method Insert(key: Key)
      requires Valid() && key !in Keys()
      modifies this`nodes, this`buckets, this`lruHead, this`lruTail, this`freeHead, this`size, this`lru, this`free, this`chains
      ensures Holds(NIL) && |nodes| == |old(nodes)|
      ensures Keys() == Touch(|nodes|, old(Keys()), key)
    {
      MissTouch(Keys(), key, |nodes|);
      var idx;
      if freeHead != NIL {
        idx := TakeFree();
      } else {
        idx := Evict();
      }
      Place(idx, key);
    }
  }

  lemma HitTouch(keys: seq<Key>, p: nat, n: nat)
    requires Distinct(keys) && p < |keys| <= n
    ensures Touch(n, keys, keys[p]) == [keys[p]] + Remove(keys, keys[p])
  {
    RemoveAt(keys, p);
  }

  lemma MissTouch(keys: seq<Key>, key: Key, n: nat)
    requires key !in keys && |keys| <= n && n >= 1
    ensures Touch(n, keys, key) == [key] + if |keys| < n then keys else keys[..n - 1]
  {
    NothingToRemove(keys, key);
  }

  /** All nodes in the free list, in order. */
  lemma EmptyConsistent(cells: seq<Node>, hash: Key -> nat, count: nat)
    requires count >= 1 && IsPow2(count) && cells != []
    requires forall j :: 0 <= j < |cells| ==> cells[j].next == if j + 1 < |cells| then j + 1 else NIL
    ensures Consistent(View(cells, seq(count, _ => NIL), NIL, NIL, 0, 0, [], seq(|cells|, j => j), seq(count, _ => [])),
                       hash, count - 1, NIL)
  {
    var free, chains := seq(|cells|, j => j), seq(count, _ => []);
    assert Linked(cells, NextOf, 0, free);
    assert Hashed(cells, seq(count, _ => NIL), chains, [], hash, count - 1);
  }

  /** What detaching the least recent node relies on. */
  lemma EvictReady(v: View, hash: Key -> nat, mask: nat) returns (b: nat, q: nat)
    requires Consistent(v, hash, mask, NIL) && v.free == [] && |v.nodes| >= 1
    ensures LruList(v.nodes, v.lruHead, v.lruTail, v.lru) && |v.lru| == |v.nodes|
    ensures |v.buckets| == mask + 1 == |v.chains| && ChainsLinked(v.nodes, v.buckets, v.chains)
    ensures 0 <= v.lruTail < |v.nodes| && v.lruTail == v.lru[|v.lru| - 1]
    ensures b == BucketOf(hash, mask, v.nodes[v.lruTail].key) < |v.buckets|
    ensures q < |v.chains[b]| && v.chains[b][q] == v.lruTail && At(v.chains[b], q - 1) < |v.nodes|
    ensures SameRecency(v.nodes, CutNodes(v.nodes, At(v.chains[b], q - 1), v.lruTail))
  {
    hide CutNodes, BucketOf, Distinct;
    b, q := TailInChain(v, hash, mask);
    assert Linked(v.nodes, HashNextOf, v.buckets[b], v.chains[b]);
    CutRange(v.nodes, v.buckets[b], v.chains[b], q);
  }

  lemma TailInChain(v: View, hash: Key -> nat, mask: nat) returns (b: nat, q: nat)
    requires Consistent(v, hash, mask, NIL) && v.free == [] && |v.nodes| >= 1
    ensures v.lru != [] && 0 <= v.lruTail < |v.nodes| && v.lruTail == v.lru[|v.lru| - 1]
    ensures b == BucketOf(hash, mask, v.nodes[v.lruTail].key) < |v.buckets|
    ensures q < |v.chains[b]| && v.chains[b][q] == v.lruTail
  {
    var idx := v.lruTail;
    InBucketRange(hash, mask, v.nodes[idx].key);
    b := BucketOf(hash, mask, v.nodes[idx].key);
    assert idx in v.lru;
    assert idx in v.chains[b];
    q :| q < |v.chains[b]| && v.chains[b][q] == idx;
  }
}
