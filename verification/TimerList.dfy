/** The timer lists of the kernel scheduler: per scheduling partition a doubly
    linked list of inactive scheduling groups, sorted by timeout and kept in the
    Prev_Timer and Next_Timer fields of the scheduling groups. */
module TimerList {

  const NO_GROUP: nat := 0

  /** The timeout of a group whose timer was never set. */
  const NEVER: nat := 0xffff_ffff_ffff_ffff

  /** The links and timeouts of all groups. */
  datatype Links = Links(prev: seq<nat>, next: seq<nat>, timeout: seq<nat>)

  /** Fields for group numbers below n, group 0 standing for No_Group. */
  ghost predicate Fields(m: Links, n: nat) {
    && n > 0 && |m.prev| == n && |m.next| == n && |m.timeout| == n
    && (forall x :: 0 <= x < n ==> m.prev[x] < n)
    && (forall x :: 0 <= x < n ==> m.next[x] < n)
  }

  predicate Distinct(list: seq<nat>) {
    forall i, j :: 0 <= i < j < |list| ==> list[i] != list[j]
  }

  predicate Sorted(list: seq<nat>, timeout: seq<nat>) {
    && (forall i :: 0 <= i < |list| ==> list[i] < |timeout|)
    && (forall i, j :: 0 <= i < j < |list| ==> timeout[list[i]] <= timeout[list[j]])
  }

  /** The fields link exactly the given list, first to last and back. */
  ghost predicate Linked(m: Links, n: nat, list: seq<nat>)
    requires Fields(m, n)
  {
    && (forall i :: 0 <= i < |list| ==> 0 < list[i] < n)
    && (forall i :: 0 <= i < |list| ==> Neighbours(m, list, i))
    && Distinct(list)
  }

  ghost predicate Neighbours(m: Links, list: seq<nat>, i: nat)
    requires i < |list|
  {
    && list[i] < |m.prev| && list[i] < |m.next|
    && m.prev[list[i]] == Before(list, i) && m.next[list[i]] == At(list, i + 1)
  }

  function Before(list: seq<nat>, i: nat): nat {
    if 0 < i <= |list| then list[i - 1] else NO_GROUP
  }

  function At(list: seq<nat>, i: nat): nat {
    if i < |list| then list[i] else NO_GROUP
  }

  // ----- the lists without the links -----

  /** Insertion ahead of the first group with a strictly later timeout. */
  function Inserted(list: seq<nat>, timeout: seq<nat>, g: nat, deadline: nat): seq<nat>
    requires forall i :: 0 <= i < |list| ==> list[i] < |timeout|
  {
    if list == [] then [g]
    else if deadline < timeout[list[0]] then [g] + list
    else [list[0]] + Inserted(list[1..], timeout, g, deadline)
  }

  function Removed(list: seq<nat>, g: nat): seq<nat> {
    if list == [] then []
    else if list[0] == g then list[1..]
    else [list[0]] + Removed(list[1..], g)
  }

  /** The groups of a list whose timeout has passed, and those still waiting. */
  function Expired(list: seq<nat>, timeout: seq<nat>, now: nat): seq<nat>
    requires forall i :: 0 <= i < |list| ==> list[i] < |timeout|
  {
    if list == [] then []
    else (if timeout[list[0]] <= now then [list[0]] else []) + Expired(list[1..], timeout, now)
  }

  function Waiting(list: seq<nat>, timeout: seq<nat>, now: nat): seq<nat>
    requires forall i :: 0 <= i < |list| ==> list[i] < |timeout|
  {
    if list == [] then []
    else (if timeout[list[0]] > now then [list[0]] else []) + Waiting(list[1..], timeout, now)
  }

  lemma {:induction false} RemovedAt(list: seq<nat>, i: nat)
    requires Distinct(list) && i < |list|
    ensures Removed(list, list[i]) == list[..i] + list[i + 1..]
  {
    if i > 0 {
      RemovedAt(list[1..], i - 1);
      assert list[1..][i - 1] == list[i];
      assert [list[0]] + list[1..][..i - 1] == list[..i];
    }
  }

  /** The place that the insertion loop stops at. */
  predicate InsertionPoint(list: seq<nat>, timeout: seq<nat>, deadline: nat, i: nat)
    requires forall k :: 0 <= k < |list| ==> list[k] < |timeout|
  {
    && i <= |list|
    && (forall k :: 0 <= k < i ==> timeout[list[k]] <= deadline)
    && (i < |list| ==> deadline < timeout[list[i]])
  }

  lemma {:induction false} InsertedAt(list: seq<nat>, timeout: seq<nat>, g: nat, deadline: nat, i: nat)
    requires forall k :: 0 <= k < |list| ==> list[k] < |timeout|
    requires InsertionPoint(list, timeout, deadline, i)
    ensures Inserted(list, timeout, g, deadline) == list[..i] + [g] + list[i..]
  {
    if i == 0 {
      assert list[..0] + [g] + list[0..] == [g] + list;
    } else {
      InsertedAt(list[1..], timeout, g, deadline, i - 1);
      assert [list[0]] + list[1..][..i - 1] == list[..i];
      assert [list[0]] + (list[1..][..i - 1] + [g] + list[1..][i - 1..]) == list[..i] + [g] + list[i..];
    }
  }

  lemma {:induction false} NoneExpired(list: seq<nat>, timeout: seq<nat>, now: nat)
    requires forall i :: 0 <= i < |list| ==> list[i] < |timeout| && timeout[list[i]] > now
    ensures Expired(list, timeout, now) == [] && Waiting(list, timeout, now) == list
  {
    if list != [] {
      NoneExpired(list[1..], timeout, now);
    }
  }

  predicate AllExpired(list: seq<nat>, timeout: seq<nat>, now: nat) {
    forall i :: 0 <= i < |list| ==> list[i] < |timeout| && timeout[list[i]] <= now
  }

  lemma NothingExpired(timeout: seq<nat>, now: nat)
    ensures AllExpired([], timeout, now)
  {
  }

  lemma ExpiredSnoc(list: seq<nat>, timeout: seq<nat>, now: nat, g: nat)
    requires AllExpired(list, timeout, now) && g < |timeout| && timeout[g] <= now
    ensures AllExpired(list + [g], timeout, now)
  {
  }

  lemma {:induction false} FirstExpired(done: seq<nat>, rest: seq<nat>, timeout: seq<nat>, now: nat)
    requires AllExpired(done, timeout, now)
    requires forall i :: 0 <= i < |rest| ==> rest[i] < |timeout| && timeout[rest[i]] > now
    ensures forall i :: 0 <= i < |done + rest| ==> (done + rest)[i] < |timeout|
    ensures Expired(done + rest, timeout, now) == done && Waiting(done + rest, timeout, now) == rest
  {
    if done == [] {
      assert done + rest == rest;
      NoneExpired(rest, timeout, now);
    } else {
      FirstExpired(done[1..], rest, timeout, now);
      assert (done + rest)[1..] == done[1..] + rest;
    }
  }

  predicate Splits(list: seq<nat>, done: seq<nat>, rest: seq<nat>) {
    list == done + rest
  }

  lemma SplitStart(list: seq<nat>)
    ensures Splits(list, [], list)
  {
  }

  lemma SplitNext(list: seq<nat>, done: seq<nat>, rest: seq<nat>)
    requires Splits(list, done, rest) && rest != []
    ensures Splits(list, done + [rest[0]], rest[1..])
  {
  }

  /** In a sorted list the expired groups are a prefix. */
  lemma ExpiredIsPrefix(
      list: seq<nat>, done: seq<nat>, rest: seq<nat>, timeout: seq<nat>, now: nat)
    requires Splits(list, done, rest) && Sorted(list, timeout) && AllExpired(done, timeout, now)
    requires rest != [] ==> rest[0] < |timeout| && timeout[rest[0]] > now
    ensures Expired(list, timeout, now) == done && Waiting(list, timeout, now) == rest
  {
    forall i | 0 <= i < |rest| ensures rest[i] < |timeout| && timeout[rest[i]] > now {
      assert (done + rest)[|done| + i] == rest[i] && (done + rest)[|done|] == rest[0];
    }
    FirstExpired(done, rest, timeout, now);
  }

  /** A sorted list stays sorted; the new group is behind all groups that
      expire no later than it does. */
  lemma InsertedSorted(list: seq<nat>, timeout: seq<nat>, g: nat, deadline: nat, i: nat)
    requires Sorted(list, timeout) && g < |timeout| && g !in list
    requires InsertionPoint(list, timeout, deadline, i)
    ensures Sorted(list[..i] + [g] + list[i..], timeout[g := deadline])
  {
    var l, t := list[..i] + [g] + list[i..], timeout[g := deadline];
    forall a, b | 0 <= a < b < |l| ensures t[l[a]] <= t[l[b]] {
      if a >= i && i < |list| {
        assert forall k :: i <= k < |list| ==> timeout[list[i]] <= timeout[list[k]];
      }
    }
  }

  // ----- relinking -----

  /** The stores of Remove_Group_From_Timer_List to the fields of the groups. */
  function Unlink(m: Links, n: nat, g: nat): (m': Links)
    requires Fields(m, n) && g < n
    ensures Fields(m', n)
  {
    var p, s := m.prev[g], m.next[g];
    var next := if p == NO_GROUP then m.next else m.next[p := s];
    var prev := if s == NO_GROUP then m.prev else m.prev[s := p];
    Links(prev[g := NO_GROUP], next[g := NO_GROUP], m.timeout)
  }

  lemma UnlinkNeighbours(m: Links, n: nat, list: seq<nat>, i: nat, k: nat)
    requires Fields(m, n) && Linked(m, n, list) && i < |list| && k < |list| - 1
    ensures Neighbours(Unlink(m, n, list[i]), list[..i] + list[i + 1..], k)
  {
    var m', list' := Unlink(m, n, list[i]), list[..i] + list[i + 1..];
    assert Neighbours(m, list, i);
    var j := if k < i then k else k + 1;
    assert list'[k] == list[j] && Neighbours(m, list, j);
    assert At(list', k + 1) == if k + 1 < i then list[k + 1] else At(list, k + 2);
    assert Before(list', k) == if k <= i then Before(list, k) else list[k];
  }

  lemma UnlinkKeepsLinked(m: Links, n: nat, list: seq<nat>, i: nat)
    requires Fields(m, n) && Linked(m, n, list) && i < |list|
    ensures var m', list' := Unlink(m, n, list[i]), list[..i] + list[i + 1..];
      && Linked(m', n, list') && list[i] !in list'
      && m'.prev[list[i]] == m'.next[list[i]] == NO_GROUP
      && forall x :: 0 <= x < n && x !in list ==> m'.prev[x] == m.prev[x] && m'.next[x] == m.next[x]
  {
    var list' := list[..i] + list[i + 1..];
    forall k | 0 <= k < |list'| ensures Neighbours(Unlink(m, n, list[i]), list', k) {
      UnlinkNeighbours(m, n, list, i, k);
    }
    SubListDistinct(list, i);
    UnlinkOutside(m, n, list, i);
    assert forall k :: 0 <= k < |list'| ==> list'[k] == list[if k < i then k else k + 1];
    hide Unlink, Distinct, Neighbours;
  }

  lemma SubListDistinct(list: seq<nat>, i: nat)
    requires Distinct(list) && i < |list|
    ensures Distinct(list[..i] + list[i + 1..]) && list[i] !in list[..i] + list[i + 1..]
  {
    var list' := list[..i] + list[i + 1..];
    assert forall k :: 0 <= k < |list'| ==> list'[k] == list[if k < i then k else k + 1];
  }

  lemma UnlinkOutside(m: Links, n: nat, list: seq<nat>, i: nat)
    requires Fields(m, n) && Linked(m, n, list) && i < |list|
    ensures var m' := Unlink(m, n, list[i]);
      && m'.prev[list[i]] == m'.next[list[i]] == NO_GROUP
      && forall x :: 0 <= x < n && x !in list ==> m'.prev[x] == m.prev[x] && m'.next[x] == m.next[x]
  {
    assert Neighbours(m, list, i);
    if i > 0 { assert list[i - 1] in list; }
    if i + 1 < |list| { assert list[i + 1] in list; }
  }

  /** The stores of Insert to the fields of the groups. */
  function Link(m: Links, n: nat, g: nat, deadline: nat, p: nat, s: nat): (m': Links)
    requires Fields(m, n) && g < n && p < n && s < n
    ensures Fields(m', n)
  {
    var next := m.next[g := s];
    var prev := m.prev[g := p];
    Links(if s == NO_GROUP then prev else prev[s := g],
          if p == NO_GROUP then next else next[p := g],
          m.timeout[g := deadline])
  }

  lemma LinkNeighbours(m: Links, n: nat, list: seq<nat>, i: nat, g: nat, deadline: nat, k: nat)
    requires Fields(m, n) && Linked(m, n, list) && i <= |list| && 0 < g < n && g !in list
    requires Before(list, i) < n && At(list, i) < n && k <= |list|
    ensures Neighbours(Link(m, n, g, deadline, Before(list, i), At(list, i)),
                       list[..i] + [g] + list[i..], k)
  {
    var m' := Link(m, n, g, deadline, Before(list, i), At(list, i));
    var list' := list[..i] + [g] + list[i..];
    if k < i {
      assert list'[k] == list[k] && Neighbours(m, list, k);
      assert Before(list', k) == Before(list, k);
      assert k + 1 < i ==> At(list', k + 1) == At(list, k + 1);
    } else if k > i {
      assert list'[k] == list[k - 1] && Neighbours(m, list, k - 1);
      assert At(list', k + 1) == At(list, k);
      assert k > i + 1 ==> Before(list', k) == Before(list, k - 1);
    }
  }

  lemma LinkKeepsLinked(m: Links, n: nat, list: seq<nat>, i: nat, g: nat, deadline: nat)
    requires Fields(m, n) && Linked(m, n, list) && i <= |list| && 0 < g < n && g !in list
    ensures Before(list, i) < n && At(list, i) < n
    ensures var m' := Link(m, n, g, deadline, Before(list, i), At(list, i));
      var list' := list[..i] + [g] + list[i..];
      && Linked(m', n, list')
      && forall x :: 0 <= x < n && x !in list' ==> m'.prev[x] == m.prev[x] && m'.next[x] == m.next[x]
  {
    var m' := Link(m, n, g, deadline, Before(list, i), At(list, i));
    var list' := list[..i] + [g] + list[i..];
    forall k | 0 <= k < |list'| ensures Neighbours(m', list', k) {
      LinkNeighbours(m, n, list, i, g, deadline, k);
    }
    forall x | 0 <= x < n && x !in list'
      ensures m'.prev[x] == m.prev[x] && m'.next[x] == m.next[x]
    {
      assert g == list'[i];
      if i > 0 { assert list'[i - 1] == list[i - 1]; }
      if i < |list| { assert list'[i + 1] == list[i]; }
    }
  }

  /** The timer list of partition p: its links, its order, its head. */
  ghost predicate ListOf(m: Links, partition: seq<nat>, p: nat, list: seq<nat>, head: nat) {
    && Fields(m, |partition|) && Linked(m, |partition|, list)
    && Sorted(list, m.timeout)
    && head == At(list, 0)
    && forall i :: 0 <= i < |list| ==> partition[list[i]] == p
  }

  /** The list of another partition is not affected. */
  lemma OtherListKept(m: Links, m': Links, partition: seq<nat>, p: nat, touched: seq<nat>,
                      q: nat, list: seq<nat>, head: nat)
    requires ListOf(m, partition, q, list, head) && p != q && Fields(m', |partition|)
    requires forall x :: 0 <= x < |partition| && x !in touched ==>
      m'.prev[x] == m.prev[x] && m'.next[x] == m.next[x] && m'.timeout[x] == m.timeout[x]
    requires forall i :: 0 <= i < |touched| ==>
      0 < touched[i] < |partition| && partition[touched[i]] == p
    ensures ListOf(m', partition, q, list, head)
  {
    forall i | 0 <= i < |list| ensures Neighbours(m', list, i) {
      assert Neighbours(m, list, i) && list[i] !in touched;
    }
    forall i | 0 <= i < |list| ensures m'.timeout[list[i]] == m.timeout[list[i]] {
      assert list[i] !in touched;
    }
  }

  /** All lists, and empty links for all groups outside them. */
  ghost predicate AllLists(m: Links, partition: seq<nat>, lists: seq<seq<nat>>, heads: seq<nat>) {
    && Fields(m, |partition|) && |heads| == |lists|
    && (forall g :: 0 <= g < |partition| ==> partition[g] < |lists|)
    && (forall p :: 0 <= p < |lists| ==> ListOf(m, partition, p, lists[p], heads[p]))
    && (forall g :: 0 < g < |partition| && g !in lists[partition[g]] ==> Unlinked(m, g))
  }

  predicate Unlinked(m: Links, g: nat) {
    && g < |m.prev| && m.prev[g] == NO_GROUP
    && g < |m.next| && m.next[g] == NO_GROUP
  }

  /** The store to Earliest_Timer when group g is removed. */
  function HeadAfterRemoval(m: Links, g: nat, head: nat): nat
    requires g < |m.prev| && g < |m.next|
  {
    if m.prev[g] == NO_GROUP then m.next[g] else head
  }

  lemma NoTimers(m: Links, partition: seq<nat>, lists: seq<seq<nat>>, heads: seq<nat>)
    requires |m.prev| == |m.next| == |m.timeout| == |partition| > 0 && |lists| == |heads|
    requires forall g :: 0 <= g < |partition| ==>
      m.prev[g] == NO_GROUP && m.next[g] == NO_GROUP && partition[g] < |lists|
    requires forall p :: 0 <= p < |lists| ==> lists[p] == [] && heads[p] == NO_GROUP
    ensures AllLists(m, partition, lists, heads)
  {
  }

  /** An operation that works on the groups in touched, all of partition p. */
  lemma ReplaceList(
      m: Links, m': Links, partition: seq<nat>, lists: seq<seq<nat>>, heads: seq<nat>,
      p: nat, touched: seq<nat>, list': seq<nat>, head': nat)
    requires AllLists(m, partition, lists, heads) && p < |lists|
    requires ListOf(m', partition, p, list', head')
    requires forall x :: 0 <= x < |partition| && x !in touched ==>
      m'.prev[x] == m.prev[x] && m'.next[x] == m.next[x] && m'.timeout[x] == m.timeout[x]
    requires forall i :: 0 <= i < |touched| ==>
      0 < touched[i] < |partition| && partition[touched[i]] == p
    requires forall x :: x in lists[p] ==> x in touched
    requires forall x :: x in touched && x !in list' ==> Unlinked(m', x)
    ensures AllLists(m', partition, lists[p := list'], heads[p := head'])
  {
    forall q | 0 <= q < |lists| && q != p ensures ListOf(m', partition, q, lists[q], heads[q]) {
      OtherListKept(m, m', partition, p, touched, q, lists[q], heads[q]);
    }
    forall x | 0 < x < |partition| && x !in lists[p := list'][partition[x]] ensures Unlinked(m', x) {
      if x !in touched {
        assert Unlinked(m, x);
      }
    }
  }

  lemma RemovedList(m: Links, partition: seq<nat>, p: nat, list: seq<nat>, head: nat, i: nat)
    requires ListOf(m, partition, p, list, head) && i < |list|
    ensures var g, m' := list[i], Unlink(m, |partition|, list[i]);
      && Removed(list, g) == list[..i] + list[i + 1..] && g !in Removed(list, g)
      && ListOf(m', partition, p, Removed(list, g), HeadAfterRemoval(m, g, head))
      && Unlinked(m', g)
      && forall x :: 0 <= x < |partition| && x !in list ==>
           m'.prev[x] == m.prev[x] && m'.next[x] == m.next[x] && m'.timeout[x] == m.timeout[x]
  {
    var g, list' := list[i], list[..i] + list[i + 1..];
    RemovedAt(list, i);
    UnlinkKeepsLinked(m, |partition|, list, i);
    UnlinkedHead(m, |partition|, list, i);
    SubListSorted(list, m.timeout, i);
    SubListIn(list, partition, p, i);
    hide Linked, Neighbours, Sorted, Removed, Distinct, HeadAfterRemoval, Fields;
  }

  lemma UnlinkedHead(m: Links, n: nat, list: seq<nat>, i: nat)
    requires Fields(m, n) && Linked(m, n, list) && i < |list|
    ensures HeadAfterRemoval(m, list[i], At(list, 0)) == At(list[..i] + list[i + 1..], 0)
  {
    assert Neighbours(m, list, i);
  }

  lemma SubListIn(list: seq<nat>, partition: seq<nat>, p: nat, i: nat)
    requires i < |list|
    requires forall k :: 0 <= k < |list| ==> list[k] < |partition| && partition[list[k]] == p
    ensures var list' := list[..i] + list[i + 1..];
      forall k :: 0 <= k < |list'| ==> list'[k] < |partition| && partition[list'[k]] == p
  {
    var list' := list[..i] + list[i + 1..];
    assert forall k :: 0 <= k < |list'| ==> list'[k] == list[if k < i then k else k + 1];
  }

  lemma SubListSorted(list: seq<nat>, timeout: seq<nat>, i: nat)
    requires Sorted(list, timeout) && i < |list|
    ensures Sorted(list[..i] + list[i + 1..], timeout)
  {
    var list' := list[..i] + list[i + 1..];
    assert forall k :: 0 <= k < |list'| ==> list'[k] == list[if k < i then k else k + 1];
  }

  lemma OthersStay(list: seq<nat>, i: nat)
    requires i < |list|
    ensures forall x :: x in list && x != list[i] ==> x in list[..i] + list[i + 1..]
  {
    var list' := list[..i] + list[i + 1..];
    forall x | x in list && x != list[i] ensures x in list' {
      var j :| 0 <= j < |list| && list[j] == x;
      assert list'[if j < i then j else j - 1] == x;
    }
  }

  /** Removing a group relinks its list without it and touches no other list. */
  lemma RemovalKeepsLists(
      m: Links, partition: seq<nat>, lists: seq<seq<nat>>, heads: seq<nat>, p: nat, g: nat)
    requires AllLists(m, partition, lists, heads) && p < |lists| && g in lists[p]
    ensures 0 < g < |partition|
    ensures g !in Removed(lists[p], g)
    ensures AllLists(Unlink(m, |partition|, g), partition,
                     lists[p := Removed(lists[p], g)],
                     heads[p := HeadAfterRemoval(m, g, heads[p])])
  {
    var list := lists[p];
    assert ListOf(m, partition, p, list, heads[p]);
    var i :| 0 <= i < |list| && list[i] == g;
    RemovedList(m, partition, p, list, heads[p], i);
    var m', list' := Unlink(m, |partition|, g), Removed(list, g);
    assert forall k :: 0 <= k < |list| ==> 0 < list[k] < |partition| && partition[list[k]] == p;
    hide AllLists, ListOf, Unlink, HeadAfterRemoval, Removed, Unlinked;
    OthersStay(list, i);
    ReplaceList(m, m', partition, lists, heads, p, list, list', HeadAfterRemoval(m, g, heads[p]));
  }

  /** Exact condition for Remove_Group_From_Timer_List: called for a group
      outside the list of its partition, its store to Earliest_Timer drops the
      whole list. */
  lemma RemovalNeedsMember(
      m: Links, partition: seq<nat>, lists: seq<seq<nat>>, heads: seq<nat>, g: nat)
    requires AllLists(m, partition, lists, heads) && 0 < g < |partition|
    ensures var p := partition[g];
      HeadAfterRemoval(m, g, heads[p]) == At(Removed(lists[p], g), 0)
      <==> g in lists[p] || lists[p] == []
  {
    var p := partition[g];
    assert ListOf(m, partition, p, lists[p], heads[p]);
    if g in lists[p] {
      RemovalKeepsLists(m, partition, lists, heads, p, g);
      var lists', heads' := lists[p := Removed(lists[p], g)],
        heads[p := HeadAfterRemoval(m, g, heads[p])];
      assert ListOf(Unlink(m, |partition|, g), partition, p, lists'[p], heads'[p]);
    } else {
      assert Unlinked(m, g);
      RemovedOutside(lists[p], g);
    }
  }

  lemma {:induction false} RemovedOutside(list: seq<nat>, g: nat)
    requires g !in list
    ensures Removed(list, g) == list
  {
    if list != [] {
      RemovedOutside(list[1..], g);
    }
  }

  lemma {:induction false} OtherStays(list: seq<nat>, g: nat, x: nat)
    requires x in list && x != g
    ensures x in Removed(list, g)
  {
    if list[0] != g && list[0] != x {
      OtherStays(list[1..], g, x);
    }
  }

  lemma AllStay(list: seq<nat>, i: nat, g: nat)
    requires i <= |list|
    ensures forall x :: x in list ==> x in list[..i] + [g] + list[i..]
  {
    var list' := list[..i] + [g] + list[i..];
    forall x | x in list ensures x in list' {
      var j :| 0 <= j < |list| && list[j] == x;
      assert list'[if j < i then j else j + 1] == x;
    }
  }

  lemma InsertedList(m: Links, partition: seq<nat>, p: nat, list: seq<nat>, head: nat,
                     g: nat, deadline: nat, i: nat)
    requires ListOf(m, partition, p, list, head)
    requires 0 < g < |partition| && partition[g] == p && g !in list
    requires forall k :: 0 <= k < |list| ==> list[k] < |m.timeout|
    requires InsertionPoint(list, m.timeout, deadline, i)
    ensures Before(list, i) < |partition| && At(list, i) < |partition|
    ensures var m' := Link(m, |partition|, g, deadline, Before(list, i), At(list, i));
      var list' := list[..i] + [g] + list[i..];
      && Inserted(list, m.timeout, g, deadline) == list'
      && ListOf(m', partition, p, list', if Before(list, i) == NO_GROUP then g else head)
      && forall x :: 0 <= x < |partition| && x !in list' ==>
           m'.prev[x] == m.prev[x] && m'.next[x] == m.next[x] && m'.timeout[x] == m.timeout[x]
  {
    LinkKeepsLinked(m, |partition|, list, i, g, deadline);
    InsertedAt(list, m.timeout, g, deadline, i);
    InsertedSorted(list, m.timeout, g, deadline, i);
    var list' := list[..i] + [g] + list[i..];
    assert list'[i] == g;
  }

  /** Linking a group in at the insertion point. */
  lemma InsertionKeepsLists(
      m: Links, partition: seq<nat>, lists: seq<seq<nat>>, heads: seq<nat>,
      g: nat, deadline: nat, i: nat)
    requires AllLists(m, partition, lists, heads) && 0 < g < |partition|
    requires g !in lists[partition[g]]
    requires forall k :: 0 <= k < |lists[partition[g]]| ==> lists[partition[g]][k] < |m.timeout|
    requires InsertionPoint(lists[partition[g]], m.timeout, deadline, i)
    ensures var p := partition[g]; var list := lists[p];
      && Before(list, i) < |partition| && At(list, i) < |partition|
      && AllLists(Link(m, |partition|, g, deadline, Before(list, i), At(list, i)), partition,
                  lists[p := Inserted(list, m.timeout, g, deadline)],
                  heads[p := if Before(list, i) == NO_GROUP then g else heads[p]])
  {
    var p := partition[g];
    var list := lists[p];
    assert ListOf(m, partition, p, list, heads[p]);
    InsertedList(m, partition, p, list, heads[p], g, deadline, i);
    var m' := Link(m, |partition|, g, deadline, Before(list, i), At(list, i));
    var list' := list[..i] + [g] + list[i..];
    assert forall k :: 0 <= k < |list| ==> 0 < list[k] < |partition| && partition[list[k]] == p;
    hide AllLists, ListOf, Link, Inserted, InsertionPoint, Unlinked;
    assert list'[i] == g;
    AllStay(list, i, g);
    ReplaceList(m, m', partition, lists, heads, p, list', list',
                if Before(list, i) == NO_GROUP then g else heads[p]);
  }

  // ----- the kernel's data, updated in place -----

  /** What other CPUs do meanwhile: an event makes a group's active subject
      active, and after that the group's bit is set. */
  datatype Remote = Post(g: nat) | Indicate(g: nat)

  class Scheduler {
    /** Policy: the partition of each group, and the groups of each partition
        by their index. Group numbers start at 1. */
    const partition: seq<nat>
    const groups: seq<seq<nat>>

    const prev: array<nat>
    const next: array<nat>
    const timeout: array<nat>
    const earliest: array<nat>
    const activeIndex: array<nat>
    /** The activity indicator bits, by group. */
    var indicated: set<nat>
    /** Groups whose active subject is running or has a pending event or
        interrupt, and those that another CPU has yet to indicate. */
    var pending: set<nat>
    var posting: set<nat>
    /** Sleeping partitions, and groups whose active subject is in the activity
        state HLT. */
    var sleeping: set<nat>
    var halted: set<nat>
    ghost var lists: seq<seq<nat>>

    ghost function Fs(): Links
      reads prev, next, timeout
    {
      Links(prev[..], next[..], timeout[..])
    }

    predicate Group(g: nat) {
      0 < g < |partition|
    }

    ghost predicate Policy() {
      && |partition| > 0
      && (forall p :: 0 <= p < |groups| ==> |groups[p]| > 0)
      && (forall p, k :: 0 <= p < |groups| && 0 <= k < |groups[p]| ==>
            Group(groups[p][k]) && partition[groups[p][k]] == p)
    }

    ghost predicate Valid()
      reads this`lists, prev, next, timeout, earliest, activeIndex
    {
      && Policy()
      && prev.Length == next.Length == timeout.Length == |partition|
      && earliest.Length == activeIndex.Length == |groups| == |lists|
      && prev != next && prev != timeout && next != timeout
      && earliest != prev && earliest != next && earliest != timeout
      && activeIndex != prev && activeIndex != next && activeIndex != timeout && activeIndex != earliest
      && AllLists(Fs(), partition, lists, earliest[..])
      && (forall p :: 0 <= p < |groups| ==> activeIndex[p] < |groups[p]|)
    }

    /** No timers are pending, and all groups of all partitions are marked as
        active. */
    constructor (partition: seq<nat>, groups: seq<seq<nat>>, active: set<nat>)
      requires |partition| > 0 && forall g :: 0 <= g < |partition| ==> partition[g] < |groups|
      requires forall p :: 0 <= p < |groups| ==> |groups[p]| > 0
      requires forall p, k :: 0 <= p < |groups| && 0 <= k < |groups[p]| ==>
        0 < groups[p][k] < |partition| && partition[groups[p][k]] == p
      requires forall g :: 0 < g < |partition| ==> g in groups[partition[g]]
      requires forall g :: g in active ==> 0 < g < |partition|
      ensures this.partition == partition && this.groups == groups && pending == active
      ensures Valid() && NoneLost() && Missed() == {}
      ensures forall p :: 0 <= p < |lists| ==> lists[p] == []
      ensures sleeping == {} && SleepsRight()
      ensures fresh(prev) && fresh(next) && fresh(timeout) && fresh(earliest) && fresh(activeIndex)
    {
      this.partition, this.groups := partition, groups;
      prev := new nat[|partition|](_ => NO_GROUP);
      next := new nat[|partition|](_ => NO_GROUP);
      timeout := new nat[|partition|](_ => NEVER);
      earliest := new nat[|groups|](_ => NO_GROUP);
      activeIndex := new nat[|groups|](_ => 0);
      pending, posting, indicated := active, {}, {};
      sleeping, halted := {}, {};
      lists := seq(|groups|, _ => []);
      new;
      NoTimers(Fs(), partition, lists, earliest[..]);
      hide AllLists;
      MarkAllActive();
    }

    /** Set the bits of all groups of all partitions. */
    method MarkAllActive()
      requires forall g: nat :: Group(g) ==> partition[g] < |groups| && g in groups[partition[g]]
      modifies this`indicated
      ensures old(indicated) <= indicated && forall g: nat :: Group(g) ==> g in indicated
    {
      for p := 0 to |groups|
        invariant old(indicated) <= indicated
        invariant forall q, k :: 0 <= q < p && 0 <= k < |groups[q]| ==> groups[q][k] in indicated
      {
        for j := 0 to |groups[p]|
          invariant old(indicated) <= indicated
          invariant forall q, k :: 0 <= q < p && 0 <= k < |groups[q]| ==> groups[q][k] in indicated
          invariant forall k :: 0 <= k < j ==> groups[p][k] in indicated
        {
          indicated := indicated + {groups[p][j]};
        }
      }
      forall g: nat | Group(g) ensures g in indicated {
        var k :| 0 <= k < |groups[partition[g]]| && groups[partition[g]][k] == g;
      }
    }

    predicate InList(g: nat, lists: seq<seq<nat>>) {
      Group(g) && partition[g] < |lists| && g in lists[partition[g]]
    }

    ghost predicate AllKept(indicated: set<nat>, lists: seq<seq<nat>>) {
      forall g :: Group(g) ==> g in indicated || InList(g, lists)
    }

    /** No scheduling group is forgotten: its bit is set or its timer is pending. */
    ghost predicate NoneLost()
      reads this`indicated, this`lists
    {
      AllKept(indicated, lists)
    }

    /** Groups that are active without being indicated, now or soon. */
    ghost function Missed(): set<nat>
      reads this`indicated, this`pending, this`posting
    {
      pending - indicated - posting
    }

    /** Of all active subjects, exactly the current one of each sleeping partition
        is halted. */
    ghost predicate SleepsAlone(sleeping: set<nat>, halted: set<nat>, index: seq<nat>) {
      && |index| == |groups|
      && forall p, k :: 0 <= p < |groups| && 0 <= k < |groups[p]| ==>
           (groups[p][k] in halted <==> p in sleeping && k == index[p])
    }

    ghost predicate SleepsRight()
      reads this`sleeping, this`halted, activeIndex
    {
      SleepsAlone(sleeping, halted, activeIndex[..])
    }

    lemma WakingUp(sleeping: set<nat>, halted: set<nat>, index: seq<nat>, p: nat, next: nat)
      requires Policy() && SleepsAlone(sleeping, halted, index)
      requires p < |groups| && Distinct(groups[p]) && index[p] < |groups[p]|
      ensures SleepsAlone(sleeping - {p}, halted - {groups[p][index[p]]}, index[p := next])
      ensures p !in sleeping ==> sleeping - {p} == sleeping && halted - {groups[p][index[p]]} == halted
    {
      var current := groups[p][index[p]];
      forall q, k | 0 <= q < |groups| && 0 <= k < |groups[q]|
        ensures groups[q][k] in halted - {current} <==> q in sleeping - {p} && k == index[p := next][q]
      {
        assert partition[groups[q][k]] == q && partition[current] == p;
      }
    }

    lemma GoingToSleep(sleeping: set<nat>, halted: set<nat>, index: seq<nat>, p: nat)
      requires Policy() && SleepsAlone(sleeping, halted, index)
      requires p < |groups| && Distinct(groups[p]) && index[p] < |groups[p]|
      ensures SleepsAlone(sleeping + {p}, halted + {groups[p][index[p]]}, index)
    {
      var current := groups[p][index[p]];
      forall q, k | 0 <= q < |groups| && 0 <= k < |groups[q]|
        ensures groups[q][k] in halted + {current} <==> q in sleeping + {p} && k == index[q]
      {
        assert partition[groups[q][k]] == q && partition[current] == p;
      }
    }

    lemma RemovalForgetsNone(
        indicated: set<nat>, indicated': set<nat>, lists: seq<seq<nat>>, p: nat, g: nat)
      requires AllKept(indicated, lists) && p < |lists| && indicated + {g} <= indicated'
      ensures AllKept(indicated', lists[p := Removed(lists[p], g)])
    {
      forall x: nat | Group(x) && x !in indicated'
        ensures InList(x, lists[p := Removed(lists[p], g)])
      {
        assert InList(x, lists);
        if partition[x] == p {
          OtherStays(lists[p], g, x);
        }
      }
    }

    lemma InsertionForgetsNone(
        indicated: set<nat>, lists: seq<seq<nat>>, p: nat, g: nat, list': seq<nat>)
      requires AllKept(indicated, lists) && p < |lists| && Group(g) && partition[g] == p
      requires g in list' && forall x :: x in lists[p] ==> x in list'
      ensures AllKept(indicated - {g}, lists[p := list'])
    {
      forall x: nat | Group(x) && x !in indicated - {g} ensures InList(x, lists[p := list']) {
        assert x == g || InList(x, lists);
      }
    }

    method IsGroupInTimerList(p: nat, g: nat) returns (r: bool)
      requires Valid() && Group(g) && partition[g] == p
      ensures r <==> g in lists[p]
    {
      assert ListOf(Fs(), partition, p, lists[p], earliest[p]);
      if g in lists[p] {
        ghost var i :| 0 <= i < |lists[p]| && lists[p][i] == g;
        assert Neighbours(Fs(), lists[p], i);
      } else {
        assert Unlinked(Fs(), g);
      }
      r := earliest[p] == g || prev[g] != NO_GROUP;
    }

    /** Remove given scheduling group from the timer list. */
    method RemoveGroup(p: nat, g: nat)
      requires Valid() && p < |groups| && g in lists[p]
      modifies this`lists, prev, next, earliest
      ensures Valid()
      ensures lists == old(lists)[p := Removed(old(lists[p]), g)] && g !in lists[p]
      ensures old(NoneLost()) && g in indicated ==> NoneLost()
    {
      if NoneLost() && g in indicated {
        RemovalForgetsNone(indicated, indicated, lists, p, g);
      }
      RemovalKeepsLists(Fs(), partition, lists, earliest[..], p, g);
      assert Fields(Fs(), |partition|) by { FieldsOf(Fs(), partition, lists, earliest[..]); }
      hide AllLists, NoneLost, AllKept, Removed, Fields, Unlink, HeadAfterRemoval;
      LinkPrevToNext(p, g);
      lists := lists[p := Removed(lists[p], g)];
    }

    /** Link the previous to the next group and reset both links of the group. */
    method LinkPrevToNext(p: nat, g: nat)
      requires prev.Length == next.Length == timeout.Length && Fields(Fs(), prev.Length)
      requires prev != next && prev != timeout && next != timeout
      requires earliest != prev && earliest != next && earliest != timeout
      requires p < earliest.Length && g < prev.Length
      modifies prev, next, earliest
      ensures Fs() == Unlink(old(Fs()), prev.Length, g)
      ensures earliest[..] == old(earliest[..])[p := HeadAfterRemoval(old(Fs()), g, old(earliest[p]))]
    {
      var before, after := prev[g], next[g];
      if before == NO_GROUP {
        earliest[p] := after;
      } else {
        next[before] := after;
      }
      if after != NO_GROUP {
        prev[after] := before;
      }
      prev[g] := NO_GROUP;
      next[g] := NO_GROUP;
    }

    /** Set the activity indicator and leave the timer list. */
    method ActivateGroup(p: nat, g: nat)
      requires Valid() && p < |groups| && g in lists[p]
      modifies this`lists, this`indicated, prev, next, earliest
      ensures Valid()
      ensures lists == old(lists)[p := Removed(old(lists[p]), g)] && g !in lists[p]
      ensures indicated == old(indicated) + {g}
      ensures old(NoneLost()) ==> NoneLost()
    {
      if NoneLost() {
        RemovalForgetsNone(indicated, indicated + {g}, lists, p, g);
      }
      hide Valid, Removed, AllKept;
      RemoveGroup(p, g);
      indicated := indicated + {g};
    }

    /** Enter the timer list, unless already in it, and clear the indicator. */
    method DeactivateGroup(p: nat, g: nat, deadline: nat)
      requires Valid() && Group(g) && partition[g] == p
      modifies this`lists, this`indicated, prev, next, timeout, earliest
      ensures Valid()
      ensures g in lists[p]
      ensures forall k :: 0 <= k < |old(lists[p])| ==> old(lists[p])[k] < timeout.Length
      ensures if g in old(lists[p]) then lists == old(lists) && timeout[..] == old(timeout[..])
              else lists == old(lists)[p := Inserted(old(lists[p]), old(timeout[..]), g, deadline)]
                   && timeout[..] == old(timeout[..])[g := deadline]
      ensures indicated == old(indicated) - {g}
      ensures old(NoneLost()) ==> NoneLost()
    {
      var inList := IsGroupInTimerList(p, g);
      assert ListOf(Fs(), partition, p, lists[p], earliest[p]);
      hide AllLists, ListOf;
      ghost var before := lists;
      if !inList {
        InsertIntoTimerList(p, g, deadline);
      }
      assert lists == before[p := lists[p]];
      if old(NoneLost()) {
        InsertionForgetsNone(indicated, before, p, g, lists[p]);
      }
      indicated := indicated - {g};
    }

    method InsertIntoTimerList(p: nat, g: nat, deadline: nat)
      requires Valid() && Group(g) && partition[g] == p && g !in lists[p]
      modifies this`lists, prev, next, timeout, earliest
      ensures Valid()
      ensures forall k :: 0 <= k < |old(lists[p])| ==> old(lists[p])[k] < timeout.Length
      ensures lists == old(lists)[p := Inserted(old(lists[p]), old(timeout[..]), g, deadline)]
      ensures g in lists[p] && forall x :: x in old(lists[p]) ==> x in lists[p]
      ensures timeout[..] == old(timeout[..])[g := deadline]
    {
      ghost var list, m, heads := lists[p], Fs(), earliest[..];
      hide ListOf, Fields, Linked, Link, Policy, Sorted;
      var before, after, i := FindPlace(p, deadline);
      InsertionKeepsLists(m, partition, lists, heads, g, deadline, i);
      InsertedAt(list, m.timeout, g, deadline, i);
      assert (list[..i] + [g] + list[i..])[i] == g;
      AllStay(list, i, g);
      hide AllLists, ListOf, InsertionPoint;
      Insert(p, g, deadline, before, after);
      lists := lists[p := Inserted(list, m.timeout, g, deadline)];
    }

    /** The insertion loop: behind all groups that expire no later. */
    method FindPlace(p: nat, deadline: nat) returns (before: nat, after: nat, ghost i: nat)
      requires Valid() && p < |groups|
      ensures p < |lists| && forall k :: 0 <= k < |lists[p]| ==> lists[p][k] < timeout.Length
      ensures InsertionPoint(lists[p], timeout[..], deadline, i)
      ensures before == Before(lists[p], i) && after == At(lists[p], i)
    {
      ghost var list := lists[p];
      assert ListOf(Fs(), partition, p, list, earliest[p]);
      before, after, i := NO_GROUP, earliest[p], 0;
      while after != NO_GROUP && timeout[after] <= deadline
        invariant i <= |list|
        invariant before == Before(list, i) && after == At(list, i) && after < timeout.Length
        invariant forall k :: 0 <= k < i ==> timeout[list[k]] <= deadline
        decreases |list| - i
      {
        assert Neighbours(Fs(), list, i);
        before := after;
        after := next[after];
        i := i + 1;
        assert i < |list| ==> 0 < list[i] < |partition|;
      }
    }

    /** Insert group between before and after. */
    method Insert(p: nat, g: nat, deadline: nat, before: nat, after: nat)
      requires prev.Length == next.Length == timeout.Length && Fields(Fs(), prev.Length)
      requires prev != next && prev != timeout && next != timeout
      requires earliest != prev && earliest != next && earliest != timeout
      requires p < earliest.Length && g < prev.Length && before < prev.Length && after < prev.Length
      modifies prev, next, timeout, earliest
      ensures Fs() == Link(old(Fs()), prev.Length, g, deadline, before, after)
      ensures earliest[..] == old(earliest[..])[p := if before == NO_GROUP then g else old(earliest[p])]
    {
      timeout[g] := deadline;
      prev[g] := before;
      next[g] := after;
      if before == NO_GROUP {
        earliest[p] := g;
      } else {
        next[before] := g;
      }
      if after != NO_GROUP {
        prev[after] := g;
      }
    }

    lemma FirstOfList(p: nat)
      requires Valid() && p < |groups|
      ensures p < earliest.Length && p < |lists|
      ensures earliest[p] == At(lists[p], 0) < prev.Length == next.Length == timeout.Length
      ensures Sorted(lists[p], timeout[..])
      ensures forall i :: 0 <= i < |lists[p]| ==> 0 < lists[p][i] < timeout.Length
      ensures lists[p] != [] <==> earliest[p] != NO_GROUP
      ensures lists[p] != [] ==> earliest[p] == lists[p][0]
      ensures lists[p] != [] ==>
        prev[lists[p][0]] == NO_GROUP && next[lists[p][0]] == At(lists[p], 1)
    {
      assert ListOf(Fs(), partition, p, lists[p], earliest[p]);
      if lists[p] != [] {
        assert Neighbours(Fs(), lists[p], 0);
      }
    }

    /** Activate the first group of a timer list; the next one is returned. */
    method ActivateFirst(p: nat) returns (after: nat)
      requires Valid() && p < |groups| && lists[p] != []
      modifies this`lists, this`indicated, prev, next, earliest
      ensures Valid() && p < |old(lists)| == |lists| && Replaced(old(lists), lists, p)
      ensures lists[p] == old(lists[p])[1..]
      ensures indicated == old(indicated) + {old(lists[p])[0]}
      ensures old(NoneLost()) ==> NoneLost()
      ensures p < earliest.Length && after == earliest[p] < timeout.Length
    {
      FirstOfList(p);
      var cur := earliest[p];
      after := next[cur];
      RemovedFirst(lists[p]);
      ActivateGroup(p, cur);
      FirstOfList(p);
    }

    /** The loop of Update_Timer_List; it stops at the first group that is
        still waiting. */
    method ActivateExpired(p: nat, now: nat, ghost ts: seq<nat>)
      returns (cur: nat, ghost done: seq<nat>)
      requires Valid() && p < |groups| && ts == timeout[..]
      modifies this`lists, this`indicated, prev, next, earliest
      ensures Valid() && p < |old(lists)| == |lists| && Replaced(old(lists), lists, p)
      ensures Splits(old(lists[p]), done, lists[p])
      ensures indicated == old(indicated) + Members(done)
      ensures old(NoneLost()) ==> NoneLost()
      ensures AllExpired(done, ts, now)
      ensures p < earliest.Length && cur == earliest[p]
      ensures cur != NO_GROUP ==> cur < |ts| && ts[cur] > now
    {
      hide *;
      FirstOfList(p);
      ReplacedSteps(lists, lists, lists, p);
      ghost var all := lists;
      cur, done := earliest[p], [];
      MembersSnoc([], 0);
      NothingExpired(ts, now);
      SplitStart(lists[p]);
      while cur != NO_GROUP && timeout[cur] <= now
        invariant Valid() && p < |old(lists)| == |lists| && Replaced(old(lists), lists, p)
        invariant p < earliest.Length && timeout[..] == ts
        invariant Splits(old(lists[p]), done, lists[p])
        invariant indicated == old(indicated) + Members(done)
        invariant old(NoneLost()) ==> NoneLost()
        invariant AllExpired(done, ts, now)
        invariant cur == earliest[p] < timeout.Length
        decreases |lists[p]|
      {
        FirstOfList(p);
        MembersSnoc(done, cur);
        assert ts[cur] <= now;
        ExpiredSnoc(done, ts, now, cur);
        SplitNext(old(lists[p]), done, lists[p]);
        done := done + [cur];
        ghost var before := lists;
        cur := ActivateFirst(p);
        ReplacedSteps(all, before, lists, p);
        FirstOfList(p);
      }
    }

    /** Activate all groups of the partition for which the timer is expired. */
    method UpdateTimerList(p: nat, now: nat)
      requires Valid() && p < |groups|
      modifies this`lists, this`indicated, prev, next, earliest
      ensures Valid()
      ensures p < |old(lists)| == |lists| && Replaced(old(lists), lists, p)
      ensures forall k :: 0 <= k < |old(lists[p])| ==> old(lists[p])[k] < |old(timeout[..])|
      ensures lists[p] == Waiting(old(lists[p]), old(timeout[..]), now)
      ensures indicated == old(indicated) + Members(Expired(old(lists[p]), old(timeout[..]), now))
      ensures old(NoneLost()) ==> NoneLost()
    {
      hide *;
      FirstOfList(p);
      ghost var list, ts := lists[p], timeout[..];
      var cur, done := ActivateExpired(p, now, ts);
      FirstOfList(p);
      ExpiredIsPrefix(list, done, lists[p], ts, now);
      StoreFirst(p, cur);
    }

    /** The closing stores of Update_Timer_List change nothing any more. */
    method StoreFirst(p: nat, cur: nat)
      requires Valid() && p < |groups| && p < earliest.Length && cur == earliest[p]
      modifies prev, earliest
      ensures Valid()
    {
      FirstOfList(p);
      ghost var m, heads := Fs(), earliest[..];
      hide AllLists, Policy, Sorted;
      earliest[p] := cur;
      if cur != NO_GROUP {
        prev[cur] := NO_GROUP;
      }
      assert Fs() == m && earliest[..] == heads;
    }

    /** Steps of other CPUs never lose a wake-up. */
    method Others(evs: seq<Remote>)
      modifies this`indicated, this`pending, this`posting
      ensures old(indicated) <= indicated && old(pending) <= pending
      ensures Missed() <= old(Missed())
      ensures evs == [] ==> indicated == old(indicated) && pending == old(pending)
      ensures old(NoneLost()) ==> NoneLost()
    {
      for k := 0 to |evs|
        invariant old(indicated) <= indicated && old(pending) <= pending
        invariant Missed() <= old(Missed())
        invariant evs == [] ==> indicated == old(indicated) && pending == old(pending)
      {
        match evs[k]
        case Post(g) => pending, posting := pending + {g}, posting + {g};
        case Indicate(g) =>
          if g in posting {
            indicated, posting := indicated + {g}, posting - {g};
          }
      }
    }

    /** Find the next active scheduling group of the partition, starting with
        the successor of the currently active one. Other CPUs perform
        env(visit, k) at point k of each visit; expired tells whether the timed
        event of a group has by then expired as well. */
    method FindNextActive(
        p: nat, env: (nat, nat) -> seq<Remote>, expired: (nat, nat) -> bool, deadline: nat -> nat)
      returns (found: nat, index: nat)
      requires Valid() && p < |groups| && p < activeIndex.Length && activeIndex[p] < |groups[p]|
      requires Distinct(groups[p]) && NoneLost() && Missed() == {}
      modifies this`lists, this`indicated, this`pending, this`posting, prev, next, timeout, earliest
      ensures Valid() && NoneLost() && Missed() == {}
      ensures found != NO_GROUP ==>
        && index < |groups[p]| && found == groups[p][index]
        && found in indicated && !InList(found, lists)
      ensures p < activeIndex.Length && activeIndex[p] < |groups[p]|
      ensures Quiet(env, expired) ==>
        IsNext(groups[p], old(indicated * pending), activeIndex[p], found, index)
    {
      hide AllLists, Policy, AllKept, Distinct, Unvisited, IsNext, Quiet;
      var current, n := activeIndex[p], |groups[p]|;
      ghost var wanted := indicated * pending;
      var visits := 0;
      assert activeIndex != prev && activeIndex != next && activeIndex != timeout && activeIndex != earliest;
      found, index := NO_GROUP, current;
      hide Valid, NoneLost, Missed;
      VisitStart(groups[p], wanted, current);
      while true
        invariant Valid() && NoneLost() && Missed() == {} && found == NO_GROUP
        invariant activeIndex[p] == current
        invariant visits < n && index == Ahead(current, visits, n)
        invariant Quiet(env, expired) ==>
          Unvisited(groups[p], wanted, indicated * pending, current, visits)
        decreases n - visits
      {
        index := if index < n - 1 then index + 1 else 0;
        ghost var now := indicated * pending;
        visits := visits + 1;
        found := Visit(p, index, visits, env, expired, deadline);
        if Quiet(env, expired) {
          VisitStep(groups[p], wanted, now, indicated * pending, current, visits);
        }
        if found != NO_GROUP {
          return;
        }
        if index == current {
          break;
        }
      }
    }

    /** One round of the search: the group found, or none. */
    method Visit(
        p: nat, index: nat, visit: nat,
        env: (nat, nat) -> seq<Remote>, expired: (nat, nat) -> bool, deadline: nat -> nat)
      returns (found: nat)
      requires Valid() && p < |groups| && index < |groups[p]|
      requires NoneLost() && Missed() == {}
      modifies this`lists, this`indicated, this`pending, this`posting, prev, next, timeout, earliest
      ensures Valid() && NoneLost() && Missed() == {}
      ensures groups[p][index] != NO_GROUP && (found == NO_GROUP || found == groups[p][index])
      ensures found != NO_GROUP ==> found in indicated && !InList(found, lists)
      ensures Quiet(env, expired) ==>
        && (found != NO_GROUP <==> groups[p][index] in old(indicated * pending))
        && indicated * pending - {groups[p][index]} == old(indicated * pending) - {groups[p][index]}
    {
      var g := groups[p][index];
      assert Group(g) && partition[g] == p && p < |lists|;
      hide Valid, NoneLost, AllKept;
      Others(env(visit, 0));
      if g !in indicated {
        return NO_GROUP;
      }
      Others(env(visit, 1));
      var active := g in pending || expired(visit, 1);
      if active {
        LeaveTimerList(p, g);
        return g;
      }
      found := DeactivateAndRecheck(p, g, env(visit, 2), deadline(g), env(visit, 3), expired(visit, 3));
    }

    method LeaveTimerList(p: nat, g: nat)
      requires Valid() && Group(g) && partition[g] == p && g in indicated && NoneLost()
      modifies this`lists, prev, next, earliest
      ensures Valid() && !InList(g, lists) && NoneLost()
    {
      assert p < |groups|;
      hide AllLists, ListOf, NoneLost, Removed;
      var inList := IsGroupInTimerList(p, g);
      if inList {
        RemoveGroup(p, g);
      }
    }

    /** After clearing the bit, look again: the subject may have become active
        in the meantime, before or after the bit was cleared. */
    method DeactivateAndRecheck(
        p: nat, g: nat, before: seq<Remote>, deadline: nat, after: seq<Remote>, expired: bool)
      returns (found: nat)
      requires Valid() && Group(g) && partition[g] == p && NoneLost() && Missed() == {}
      modifies this`lists, this`indicated, this`pending, this`posting, prev, next, timeout, earliest
      ensures Valid() && NoneLost() && Missed() == {}
      ensures found == NO_GROUP || found == g
      ensures found != NO_GROUP ==> found in indicated && !InList(found, lists)
      ensures before == [] && after == [] && !expired && g !in old(pending) ==>
        found == NO_GROUP && pending == old(pending) && indicated == old(indicated) - {g}
    {
      assert p < |groups| == |lists|;
      hide Valid, NoneLost, AllKept, Removed, Inserted;
      found := NO_GROUP;
      Others(before);
      DeactivateGroup(p, g, deadline);
      assert Missed() <= {g};
      Others(after);
      assert Missed() <= {g};
      var active := g in pending || expired;
      if active {
        ActivateGroup(p, g);
        found := g;
      }
    }

    /** Switch to a group that was found; its active subject runs. */
    method SwitchTo(p: nat, found: nat, index: nat)
      requires Valid() && NoneLost() && Missed() == {} && p < |groups|
      requires found != NO_GROUP ==> index < |groups[p]| && found == groups[p][index] && found in indicated
      modifies this`pending, activeIndex
      ensures Valid() && NoneLost() && Missed() == {} && p < activeIndex.Length
      ensures if found == NO_GROUP then activeIndex[..] == old(activeIndex[..]) && pending == old(pending)
              else activeIndex[..] == old(activeIndex[..])[p := index] && pending == old(pending) + {found}
    {
      hide AllLists, NoneLost;
      if found != NO_GROUP {
        pending := pending + {found};
        activeIndex[p] := index;
      }
    }

    /** Before the switch to a group that was found: if the partition sleeps, its
        current subject wakes up. */
    method WakeUp(p: nat, index: nat)
      requires Policy() && p < |groups| && Distinct(groups[p])
      requires p < activeIndex.Length && activeIndex[p] < |groups[p]|
      modifies this`sleeping, this`halted
      ensures sleeping == old(sleeping) - {p}
      ensures old(SleepsAlone(sleeping, halted, activeIndex[..])) ==>
        SleepsAlone(sleeping, halted, activeIndex[..][p := index])
    {
      if SleepsAlone(sleeping, halted, activeIndex[..]) {
        WakingUp(sleeping, halted, activeIndex[..], p, index);
      }
      hide SleepsAlone, Policy;
      if p in sleeping {
        halted := halted - {groups[p][activeIndex[p]]};
        sleeping := sleeping - {p};
      }
    }

    /** Without a group that was found the partition and its current subject
        sleep. */
    method FallAsleep(p: nat)
      requires Policy() && p < |groups| && Distinct(groups[p])
      requires p < activeIndex.Length && activeIndex[p] < |groups[p]|
      modifies this`sleeping, this`halted
      ensures sleeping == old(sleeping) + {p}
      ensures old(SleepsAlone(sleeping, halted, activeIndex[..])) ==>
        SleepsAlone(sleeping, halted, activeIndex[..])
    {
      if SleepsAlone(sleeping, halted, activeIndex[..]) {
        GoingToSleep(sleeping, halted, activeIndex[..], p);
      }
      halted := halted + {groups[p][activeIndex[p]]};
      sleeping := sleeping + {p};
      hide SleepsAlone, Policy;
    }

    /** A partition that is awake stays so with another current group. */
    lemma StaysAwake(p: nat, index: nat, was: seq<nat>)
      requires Policy() && p < |groups| && Distinct(groups[p])
      requires p !in sleeping && SleepsAlone(sleeping, halted, was) && was[p] < |groups[p]|
      ensures SleepsAlone(sleeping, halted, was[p := index])
    {
      WakingUp(sleeping, halted, was, p, index);
      hide SleepsAlone, Policy;
    }

    /** What the update of the timer list keeps. */
    method ExpireTimers(p: nat, now: nat)
      requires Valid() && NoneLost() && Missed() == {} && p < |groups|
      modifies this`lists, this`indicated, prev, next, earliest
      ensures Valid() && NoneLost() && Missed() == {}
    {
      hide Valid, NoneLost, AllKept, Waiting, Expired, Members, Replaced;
      UpdateTimerList(p, now);
    }

    /** Scheduling on a change of minor or major frame: expired timers, then the
        next active group. A sleeping partition wakes up if there is one. */
    method UpdatePartition(
        p: nat, now: nat, env: (nat, nat) -> seq<Remote>, expired: (nat, nat) -> bool, deadline: nat -> nat)
      returns (found: nat)
      requires Valid() && NoneLost() && Missed() == {} && p < |groups| && Distinct(groups[p])
      modifies this`lists, this`indicated, this`pending, this`posting, this`sleeping, this`halted,
        prev, next, timeout, earliest, activeIndex
      ensures Valid() && NoneLost() && Missed() == {}
      ensures found != NO_GROUP ==> found in indicated * pending && !InList(found, lists)
      ensures found != NO_GROUP ==>
        p < activeIndex.Length && activeIndex[p] < |groups[p]| && groups[p][activeIndex[p]] == found
      ensures sleeping == if found == NO_GROUP then old(sleeping) else old(sleeping) - {p}
      ensures old(SleepsRight()) ==> SleepsRight()
    {
      hide Valid, NoneLost, Missed, Distinct, IsNext, Quiet, SleepsRight, Group, InList;
      CurrentGroup(p);
      ExpireTimers(p, now);
      var index;
      found, index := FindNextActive(p, env, expired, deadline);
      WakeAndSwitch(p, found, index);
    }

    /** What follows the search on a frame change. */
    method WakeAndSwitch(p: nat, found: nat, index: nat)
      requires Valid() && NoneLost() && Missed() == {} && p < |groups| && Distinct(groups[p])
      requires found != NO_GROUP ==> index < |groups[p]| && found == groups[p][index] && found in indicated
      requires p < activeIndex.Length && activeIndex[p] < |groups[p]|
      modifies this`pending, this`sleeping, this`halted, activeIndex
      ensures Valid() && NoneLost() && Missed() == {}
      ensures activeIndex[..] == if found == NO_GROUP then old(activeIndex[..]) else old(activeIndex[..])[p := index]
      ensures pending == if found == NO_GROUP then old(pending) else old(pending) + {found}
      ensures sleeping == if found == NO_GROUP then old(sleeping) else old(sleeping) - {p}
      ensures old(SleepsRight()) ==> SleepsRight()
    {
      assert Policy();
      hide Valid, NoneLost, AllKept, SleepsAlone, Policy, Distinct;
      if found != NO_GROUP {
        WakeUp(p, index);
      }
      SwitchTo(p, found, index);
    }

    /** The group of the subject that gives up the CPU is deactivated, unless its
        subject is active. */
    method DeactivateCurrent(
        p: nat, g: nat, asleep: bool, deadline: nat,
        before: seq<Remote>, after: seq<Remote>, expiredNow: bool, expiredAfter: bool)
      requires Valid() && Group(g) && partition[g] == p && NoneLost() && Missed() == {}
      modifies this`lists, this`indicated, this`pending, this`posting, prev, next, timeout, earliest
      ensures Valid() && NoneLost() && Missed() == {}
    {
      hide Valid, NoneLost, AllKept;
      if asleep {
        pending := pending - {g};
      }
      if g !in pending && !expiredNow {
        var _ := DeactivateAndRecheck(p, g, before, deadline, after, expiredAfter);
      }
    }

    lemma CurrentGroup(p: nat)
      requires Valid() && p < |groups|
      ensures activeIndex != prev && activeIndex != next && activeIndex != timeout && activeIndex != earliest
      ensures p < activeIndex.Length && activeIndex[p] < |groups[p]|
      ensures Group(groups[p][activeIndex[p]]) && partition[groups[p][activeIndex[p]]] == p
    {
      hide AllLists;
    }

    /** Rescheduling after a sleep or yield of the current subject. Asleep tells
        whether the subject that asked to sleep has nothing else to do. Without an
        active group the partition goes to sleep. */
    method ReschedulePartition(
        p: nat, asleep: bool, deadline: nat -> nat,
        before: seq<Remote>, after: seq<Remote>, expiredNow: bool, expiredAfter: bool,
        env: (nat, nat) -> seq<Remote>, expired: (nat, nat) -> bool)
      returns (found: nat)
      requires Valid() && NoneLost() && Missed() == {} && p < |groups| && Distinct(groups[p])
      modifies this`lists, this`indicated, this`pending, this`posting, this`sleeping, this`halted,
        prev, next, timeout, earliest, activeIndex
      ensures Valid() && NoneLost() && Missed() == {}
      ensures found != NO_GROUP ==> found in indicated * pending && !InList(found, lists)
      ensures found != NO_GROUP ==>
        p < activeIndex.Length && activeIndex[p] < |groups[p]| && groups[p][activeIndex[p]] == found
      ensures sleeping == if found == NO_GROUP then old(sleeping) + {p} else old(sleeping)
      ensures old(SleepsRight()) && p !in old(sleeping) ==> SleepsRight()
    {
      hide Valid, NoneLost, Missed, Distinct, IsNext, Quiet, SleepsRight, Group, InList;
      CurrentGroup(p);
      var g := groups[p][activeIndex[p]];
      DeactivateCurrent(p, g, asleep, deadline(g), before, after, expiredNow, expiredAfter);
      var index;
      found, index := FindNextActive(p, env, expired, deadline);
      SwitchOrSleep(p, found, index);
    }

    /** What follows the search when the current subject gives up the CPU. */
    method SwitchOrSleep(p: nat, found: nat, index: nat)
      requires Valid() && NoneLost() && Missed() == {} && p < |groups| && Distinct(groups[p])
      requires found != NO_GROUP ==> index < |groups[p]| && found == groups[p][index] && found in indicated
      requires p < activeIndex.Length && activeIndex[p] < |groups[p]|
      modifies this`pending, this`sleeping, this`halted, activeIndex
      ensures Valid() && NoneLost() && Missed() == {}
      ensures activeIndex[..] == if found == NO_GROUP then old(activeIndex[..]) else old(activeIndex[..])[p := index]
      ensures pending == if found == NO_GROUP then old(pending) else old(pending) + {found}
      ensures sleeping == if found == NO_GROUP then old(sleeping) + {p} else old(sleeping)
      ensures old(SleepsRight()) && p !in old(sleeping) ==> SleepsRight()
    {
      assert Policy();
      hide Valid, NoneLost, AllKept, SleepsAlone, Policy, Distinct;
      if SleepsRight() && p !in sleeping {
        StaysAwake(p, index, activeIndex[..]);
      }
      SwitchTo(p, found, index);
      if found == NO_GROUP {
        FallAsleep(p);
      }
    }

    /** The announced activity of a subject is indicated. On the same CPU an event
        for a subject that is not the active one of its group is none of the
        group's, and changes nothing. */
    method IndicateActivity(g: nat, isActiveSubject: bool, sameCpu: bool)
      requires Group(g) && (g in posting || (sameCpu && !isActiveSubject))
      modifies this`indicated, this`posting
      ensures sameCpu && !isActiveSubject ==> indicated == old(indicated) && posting == old(posting)
      ensures !sameCpu || isActiveSubject ==>
        indicated == old(indicated) + {g} && posting == old(posting) - {g}
      ensures Missed() == old(Missed())
      ensures old(NoneLost()) ==> NoneLost()
    {
      if sameCpu {
        if isActiveSubject {
          indicated := indicated + {g};
          posting := posting - {g};
        }
      } else {
        indicated := indicated + {g};
        posting := posting - {g};
      }
    }
  }

  ghost predicate Quiet(env: (nat, nat) -> seq<Remote>, expired: (nat, nat) -> bool) {
    forall i: nat, k: nat {:trigger env(i, k)} :: env(i, k) == [] && !expired(i, k)
  }

  /** The index j places after current, round and round. */
  function Ahead(current: nat, j: nat, n: nat): nat
    requires current < n && j <= n
  {
    if current + j < n then current + j else current + j - n
  }

  /** Found is the first wanted group after the current one, in cyclic order,
      the current one coming last. */
  ghost predicate IsNext(groups: seq<nat>, wanted: set<nat>, current: nat, found: nat, index: nat)
    requires current < |groups|
  {
    var n := |groups|;
    if found == NO_GROUP then
      forall i :: 0 < i <= n ==> groups[Ahead(current, i, n)] !in wanted
    else
      exists j :: 0 < j <= n && index == Ahead(current, j, n)
        && found == groups[index] && found in wanted
        && forall i :: 0 < i < j ==> groups[Ahead(current, i, n)] !in wanted
  }

  ghost predicate Unvisited(
      groups: seq<nat>, wanted: set<nat>, now: set<nat>, current: nat, visits: nat)
    requires current < |groups|
  {
    var n := |groups|;
    && (forall i :: 0 < i <= visits && i <= n ==> groups[Ahead(current, i, n)] !in wanted)
    && (forall i :: visits < i <= n ==>
          (groups[Ahead(current, i, n)] in wanted <==> groups[Ahead(current, i, n)] in now))
  }

  lemma AheadIsInjective(current: nat, i: nat, j: nat, n: nat)
    requires current < n && 0 < i < j <= n
    ensures Ahead(current, i, n) != Ahead(current, j, n)
    ensures Ahead(current, i, n) < n && Ahead(current, j, n) < n
  {
  }

  lemma VisitStart(groups: seq<nat>, wanted: set<nat>, current: nat)
    requires current < |groups|
    ensures Unvisited(groups, wanted, wanted, current, 0)
  {
  }

  /** Visiting a group changes only its own state, so that the groups ahead
      still have the state they had at the start of the search. */
  lemma VisitStep(groups: seq<nat>, wanted: set<nat>, now: set<nat>, now': set<nat>,
                  current: nat, visits: nat)
    requires current < |groups| && 0 < visits <= |groups| && Distinct(groups)
    requires Unvisited(groups, wanted, now, current, visits - 1)
    requires groups[Ahead(current, visits, |groups|)] != NO_GROUP
    requires var g := groups[Ahead(current, visits, |groups|)]; now - {g} == now' - {g}
    ensures var index := Ahead(current, visits, |groups|); var g := groups[index];
      && (g in now ==> IsNext(groups, wanted, current, g, index))
      && (g !in now ==> Unvisited(groups, wanted, now', current, visits))
      && (g !in now && visits == |groups| ==> IsNext(groups, wanted, current, NO_GROUP, index))
  {
    var n := |groups|;
    var g := groups[Ahead(current, visits, n)];
    forall i | visits < i <= n
      ensures groups[Ahead(current, i, n)] in now <==> groups[Ahead(current, i, n)] in now'
    {
      AheadIsInjective(current, visits, i, n);
      var x := groups[Ahead(current, i, n)];
      assert x != g;
      assert x in now - {g} <==> x in now' - {g};
    }
  }

  /** Only the list of partition p may differ. */
  predicate Replaced(lists: seq<seq<nat>>, lists': seq<seq<nat>>, p: nat) {
    |lists| == |lists'| && forall q :: 0 <= q < |lists| && q != p ==> lists'[q] == lists[q]
  }

  lemma ReplacedSteps(a: seq<seq<nat>>, b: seq<seq<nat>>, c: seq<seq<nat>>, p: nat)
    ensures Replaced(a, a, p)
    ensures Replaced(a, b, p) && Replaced(b, c, p) ==> Replaced(a, c, p)
  {
  }

  function Members(list: seq<nat>): set<nat> {
    set x | x in list
  }

  lemma RemovedFirst(list: seq<nat>)
    requires list != []
    ensures Removed(list, list[0]) == list[1..]
  {
  }

  lemma MembersSnoc(list: seq<nat>, g: nat)
    ensures Members([]) == {} && Members(list + [g]) == Members(list) + {g}
  {
  }

  lemma FieldsOf(m: Links, partition: seq<nat>, lists: seq<seq<nat>>, heads: seq<nat>)
    requires AllLists(m, partition, lists, heads)
    ensures Fields(m, |partition|)
  {
  }
}
