/** The loaded plugin instances of plugins.c: a list of process ids, each with its own list
    of instances. */
module InstanceModel {
  import opened TshList

  type Uid = int

  /** Module calls into the kernel, in the order they are made. */
  datatype Call = StopUnload(pid: int, uid: Uid) | Stop(pid: int, uid: Uid)

  /** pid -> instances, where an instance is keyed by its plugin id. */
  type Model = seq<Entry<seq<Entry<Uid>>>>

  predicate DistinctKeys<T>(es: seq<Entry<T>>) {
    forall i, j | 0 <= i < j < |es| :: es[i].key != es[j].key
  }

  /** create_instance; roomPid and roomInstance say whether allocation succeeds. */
  function Created(m: Model, id: int, pid: int, uid: Uid, roomPid: bool, roomInstance: bool): Model {
    var k := IndexOf(m, pid);
    if k == |m| && !roomPid then m
    else
      var m1 := if k == |m| then m + [Entry(pid, [])] else m;
      if roomInstance then m1[k := Entry(pid, m1[k].data + [Entry(id, uid)])] else m1
  }

  /** unload_plugin: each process loses its first instance of the plugin. */
  function Unloaded(m: Model, id: int): (r: Model)
    ensures |r| == |m|
    ensures forall i | 0 <= i < |m| :: r[i] == Entry(m[i].key, RemoveFirst(m[i].data, id))
  {
    seq(|m|, i requires 0 <= i < |m| => Entry(m[i].key, RemoveFirst(m[i].data, id)))
  }

  /** The call unload_plugin makes for one process, if it runs the plugin. */
  function UnloadCall(e: Entry<seq<Entry<Uid>>>, id: int): seq<Call> {
    var k := IndexOf(e.data, id);
    if k < |e.data| then [StopUnload(e.key, e.data[k].data)] else []
  }

  function UnloadCalls(m: Model, id: int): seq<Call> {
    if m == [] then [] else UnloadCalls(m[..|m| - 1], id) + UnloadCall(m[|m| - 1], id)
  }

  /** The store when unload_plugin has dealt with the first k processes. */
  function PartlyUnloaded(m: Model, id: int, k: nat): (r: Model)
    requires k <= |m|
    ensures |r| == |m|
    ensures forall i | 0 <= i < |m| :: r[i] == if i < k then Entry(m[i].key, RemoveFirst(m[i].data, id)) else m[i]
  {
    Unloaded(m, id)[..k] + m[k..]
  }

  lemma UnloadStep(m: Model, id: int, k: nat)
    requires k < |m|
    ensures var c := PartlyUnloaded(m, id, k);
            |c| == |m| && c[k] == m[k] &&
            PartlyUnloaded(m, id, k + 1) == c[k := Entry(m[k].key, RemoveFirst(m[k].data, id))]
    ensures UnloadCalls(m[..k + 1], id) == UnloadCalls(m[..k], id) + UnloadCall(m[k], id)
  {
    hide IndexOf, RemoveFirst, UnloadCall, PartlyUnloaded, Unloaded;
    assert m[..k + 1][..k] == m[..k];
  }

  lemma UnloadEnds(m: Model, id: int)
    ensures PartlyUnloaded(m, id, 0) == m && PartlyUnloaded(m, id, |m|) == Unloaded(m, id)
    ensures UnloadCalls(m[..0], id) == [] && UnloadCalls(m[..|m|], id) == UnloadCalls(m, id)
  {
    assert m[..|m|] == m;
  }

  /** The calls unload_plugins_for_pid makes: one for each instance, in list order. */
  function StopCalls(pid: int, es: seq<Entry<Uid>>): (calls: seq<Call>)
    ensures |calls| == |es|
  {
    if es == [] then [] else [Stop(pid, es[0].data)] + StopCalls(pid, es[1..])
  }

  lemma {:induction false} StopsEachOnce(pid: int, es: seq<Entry<Uid>>, i: nat)
    requires i < |es|
    ensures StopCalls(pid, es)[i] == Stop(pid, es[i].data)
  {
    if i > 0 { StopsEachOnce(pid, es[1..], i - 1); }
  }

  lemma RemoveHead(es: seq<Entry<Uid>>)
    requires es != []
    ensures IndexOf(es, es[0].key) == 0 && RemoveFirst(es, es[0].key) == es[1..]
  {}

  lemma StopStep(pid: int, es: seq<Entry<Uid>>, i: nat)
    requires i < |es|
    ensures es[i..] != [] && es[i..][0] == es[i] && es[i..][1..] == es[i + 1..]
    ensures StopCalls(pid, es[i..]) == [Stop(pid, es[i].data)] + StopCalls(pid, es[i + 1..])
  {
    assert es[i..][1..] == es[i + 1..];
  }

  /** The store when the first i instances of process k have been stopped. */
  function StoppedTo(m: Model, k: nat, i: nat): (r: Model)
    requires k < |m| && i <= |m[k].data|
    ensures |r| == |m|
  {
    m[k := Entry(m[k].key, m[k].data[i..])]
  }

  lemma StoppedNext(m: Model, k: nat, pid: int, i: nat)
    requires k < |m| && i < |m[k].data|
    ensures var c, es := StoppedTo(m, k, i), m[k].data;
            && c[k].data != [] && c[k].data[0] == es[i]
            && c[k := Entry(c[k].key, c[k].data[1..])] == StoppedTo(m, k, i + 1)
            && StopCalls(pid, es[i..]) == [Stop(pid, c[k].data[0].data)] + StopCalls(pid, es[i + 1..])
            && (StoppedTo(m, k, i + 1)[k].data == [] <==> i + 1 == |es|)
  {
    hide StopCalls;
    StopStep(pid, m[k].data, i);
  }

  lemma StoppedEnds(m: Model, k: nat)
    requires k < |m|
    ensures StoppedTo(m, k, 0) == m && StoppedTo(m, k, |m[k].data|) == m[k := Entry(m[k].key, [])]
    ensures m[k].data[0..] == m[k].data && m[k].data[|m[k].data|..] == []
  {
    assert m[k].data[0..] == m[k].data && m[k] == Entry(m[k].key, m[k].data);
    assert m[k].data[|m[k].data|..] == [];
  }

  /** Every instance loaded anywhere, as the call that would unload it. */
  function Running(m: Model): multiset<Call> {
    if m == [] then multiset{} else Running(m[..|m| - 1]) + RunningIn(m[|m| - 1].key, m[|m| - 1].data)
  }

  function RunningIn(pid: int, es: seq<Entry<Uid>>): multiset<Call> {
    if es == [] then multiset{} else multiset{StopUnload(pid, es[0].data)} + RunningIn(pid, es[1..])
  }

  lemma RemoveFirstStep(pid: int, es: seq<Entry<Uid>>, id: int)
    requires es != []
    ensures RemoveFirst(es, id) == if es[0].key == id then es[1..] else [es[0]] + RemoveFirst(es[1..], id)
    ensures UnloadCall(Entry(pid, es), id) ==
            if es[0].key == id then [StopUnload(pid, es[0].data)] else UnloadCall(Entry(pid, es[1..]), id)
  {
    var k := IndexOf(es[1..], id);
    if es[0].key != id {
      assert IndexOf(es, id) == k + 1;
      if k < |es[1..]| {
        assert Without(es, k + 1) == [es[0]] + Without(es[1..], k);
      } else {
        assert es == [es[0]] + es[1..];
      }
    }
  }

  lemma {:induction false} RemoveFirstRunning(pid: int, es: seq<Entry<Uid>>, id: int)
    ensures RunningIn(pid, es) == RunningIn(pid, RemoveFirst(es, id)) + multiset(UnloadCall(Entry(pid, es), id))
    decreases |es|
  {
    if es != [] {
      RemoveFirstStep(pid, es, id);
      if es[0].key != id { RemoveFirstRunning(pid, es[1..], id); }
    }
  }

  /** unload_plugin neither loses nor duplicates an instance: what was running is what still
      runs together with what was stopped and unloaded. */
  lemma {:induction false} UnloadConserves(m: Model, id: int)
    ensures Running(m) == Running(Unloaded(m, id)) + multiset(UnloadCalls(m, id))
    decreases |m|
  {
    hide UnloadCall, RemoveFirst, RunningIn;
    if m != [] {
      var front, last := m[..|m| - 1], m[|m| - 1];
      UnloadConserves(front, id);
      RemoveFirstRunning(last.key, last.data, id);
      assert Unloaded(m, id)[..|m| - 1] == Unloaded(front, id);
      assert last == Entry(last.key, last.data);
      SumOfSums(Running(Unloaded(front, id)), multiset(UnloadCalls(front, id)),
                RunningIn(last.key, RemoveFirst(last.data, id)), multiset(UnloadCall(last, id)));
    }
  }

  lemma SumOfSums(b: multiset<Call>, c: multiset<Call>, y: multiset<Call>, z: multiset<Call>)
    ensures (b + c) + (y + z) == (b + y) + (c + z)
  {}

  /** create_instance adds the instance at the end of its process's list, and the process, if it is
      new, at the end of the store; nothing else moves. */
  lemma {:induction false} LoadAppends(m: Model, id: int, pid: int, uid: Uid, roomPid: bool, roomInstance: bool)
    ensures var k := IndexOf(m, pid);
            var r := Created(m, id, pid, uid, roomPid, roomInstance);
            && |r| == (if k == |m| && roomPid then |m| + 1 else |m|)
            && (forall i | 0 <= i < |m| && i != k :: r[i] == m[i])
            && (k < |r| ==> r[k] == Entry(pid, ListOf(m, k) + if roomInstance then [Entry(id, uid)] else []))
  {
    var k := IndexOf(m, pid);
    assert ListOf(m, k) + [] == ListOf(m, k);
    assert k < |m| ==> m[k] == Entry(pid, m[k].data);
  }

  function ListOf(m: Model, k: nat): seq<Entry<Uid>> {
    if k < |m| then m[k].data else []
  }

  lemma {:induction false} RunningChange(m: Model, k: nat, e: Entry<seq<Entry<Uid>>>)
    requires k < |m|
    ensures Running(m[k := e]) + RunningIn(m[k].key, m[k].data) == Running(m) + RunningIn(e.key, e.data)
    decreases |m|
  {
    hide RunningIn;
    var n := |m| - 1;
    if k < n {
      RunningChange(m[..n], k, e);
      assert m[k := e][..n] == m[..n][k := e] && m[..n][k] == m[k] && m[k := e][n] == m[n];
      Alongside(Running(m[..n][k := e]), Running(m[..n]), RunningIn(m[k].key, m[k].data), RunningIn(e.key, e.data),
                RunningIn(m[n].key, m[n].data));
    } else {
      assert m[k := e][..n] == m[..n] && m[k := e][n] == e;
    }
  }

  lemma {:induction false} RunningAppend(pid: int, es: seq<Entry<Uid>>, id: int, uid: Uid)
    ensures RunningIn(pid, es + [Entry(id, uid)]) == RunningIn(pid, es) + multiset{StopUnload(pid, uid)}
    decreases |es|
  {
    var fs := es + [Entry(id, uid)];
    if es != [] {
      RunningAppend(pid, es[1..], id, uid);
      assert fs[1..] == es[1..] + [Entry(id, uid)];
    } else {
      assert fs[1..] == [];
    }
  }

  lemma Cancel(a: multiset<Call>, b: multiset<Call>, x: multiset<Call>, y: multiset<Call>)
    requires a + x == b + (x + y)
    ensures a == b + y
  {
    forall c: Call ensures a[c] == (b + y)[c] {
      assert (a + x)[c] == (b + (x + y))[c];
    }
  }

  lemma Alongside(a: multiset<Call>, b: multiset<Call>, x: multiset<Call>, y: multiset<Call>, z: multiset<Call>)
    requires a + x == b + y
    ensures (a + z) + x == (b + z) + y
  {
    forall c: Call ensures ((a + z) + x)[c] == ((b + z) + y)[c] {
      assert (a + x)[c] == (b + y)[c];
    }
  }

  lemma RunningNewProcess(m: Model, pid: int)
    ensures Running(m + [Entry(pid, [])]) == Running(m)
  {
    assert (m + [Entry(pid, [])])[..|m|] == m;
  }

  /** Loading adds exactly the instance of that plugin's module in that process, if both
      allocations succeed, and nothing otherwise. */
  lemma {:induction false} LoadConserves(m: Model, id: int, pid: int, uid: Uid, roomPid: bool, roomInstance: bool)
    ensures Running(Created(m, id, pid, uid, roomPid, roomInstance)) ==
            Running(m) + if (IndexOf(m, pid) < |m| || roomPid) && roomInstance then multiset{StopUnload(pid, uid)}
                         else multiset{}
  {
    hide Running, RunningIn;
    var k := IndexOf(m, pid);
    RunningNewProcess(m, pid);
    if k < |m| || roomPid {
      var m1 := if k == |m| then m + [Entry(pid, [])] else m;
      assert m1[k].key == pid;
      RunningChange(m1, k, Entry(pid, m1[k].data + [Entry(id, uid)]));
      RunningAppend(pid, m1[k].data, id, uid);
      Cancel(Running(m1[k := Entry(pid, m1[k].data + [Entry(id, uid)])]), Running(m1), RunningIn(pid, m1[k].data),
             multiset{StopUnload(pid, uid)});
    }
  }

  lemma {:induction false} NowhereNoCalls(m: Model, id: int)
    requires forall i | 0 <= i < |m| :: IndexOf(m[i].data, id) == |m[i].data|
    ensures UnloadCalls(m, id) == []
    decreases |m|
  {
    if m != [] { NowhereNoCalls(m[..|m| - 1], id); }
  }

  lemma {:induction false} OneCall(m: Model, id: int, k: nat)
    requires k < |m| && forall i | 0 <= i < |m| && i != k :: IndexOf(m[i].data, id) == |m[i].data|
    ensures UnloadCalls(m, id) == UnloadCall(m[k], id)
    decreases |m|
  {
    hide IndexOf;
    var n := |m| - 1;
    if k < n {
      OneCall(m[..n], id, k);
    } else {
      NowhereNoCalls(m[..n], id);
    }
  }

  /** Unloading a plugin that was loaded into one process and ran nowhere before stops and unloads
      that module there, and makes no other call. */
  lemma {:induction false} LoadThenUnloadCalls(
      m: Model, id: int, pid: int, uid: Uid, roomPid: bool, roomInstance: bool)
    requires forall i | 0 <= i < |m| :: IndexOf(m[i].data, id) == |m[i].data|
    ensures UnloadCalls(Created(m, id, pid, uid, roomPid, roomInstance), id) ==
            if (IndexOf(m, pid) < |m| || roomPid) && roomInstance then [StopUnload(pid, uid)] else []
  {
    hide UnloadCalls, Created, IndexOf;
    var k := IndexOf(m, pid);
    var r := Created(m, id, pid, uid, roomPid, roomInstance);
    LoadAppends(m, id, pid, uid, roomPid, roomInstance);
    NothingToRemove([], id);
    if k < |r| && roomInstance {
      var es := if k < |m| then m[k].data else [];
      IndexOfIs(es + [Entry(id, uid)], id, |es|);
      OneCall(r, id, k);
    } else {
      assert k < |m| ==> m[k].data + [] == m[k].data;
      NowhereNoCalls(r, id);
    }
  }

  lemma AddThenRemove(es: seq<Entry<Uid>>, id: int, uid: Uid)
    requires IndexOf(es, id) == |es|
    ensures RemoveFirst(es + [Entry(id, uid)], id) == es
  {
    var fs := es + [Entry(id, uid)];
    IndexOfIs(fs, id, |es|);
    assert Without(fs, |es|) == es;
  }

  /** A plugin loaded into a process and unloaded leaves every process as it was, if it was
      running nowhere; at most an empty process entry remains. */
  lemma {:induction false} LoadThenUnload(
      m: Model, id: int, pid: int, uid: Uid, roomPid: bool, roomInstance: bool)
    requires forall i | 0 <= i < |m| :: IndexOf(m[i].data, id) == |m[i].data|
    ensures var r := Unloaded(Created(m, id, pid, uid, roomPid, roomInstance), id);
            r == m || (IndexOf(m, pid) == |m| && r == m + [Entry(pid, [])])
  {
    hide IndexOf, RemoveFirst, Without;
    var c := Created(m, id, pid, uid, roomPid, roomInstance);
    var r := Unloaded(c, id);
    var k := IndexOf(m, pid);
    NothingToRemove([], id);
    forall i | 0 <= i < |m| ensures r[i] == m[i] {
      NothingToRemove(m[i].data, id);
      AddThenRemove(m[i].data, id, uid);
    }
    if k == |m| && roomPid {
      AddThenRemove([], id, uid);
      assert r[k] == Entry(pid, []);
    }
  }

  lemma NothingToRemove(es: seq<Entry<Uid>>, id: int)
    ensures IndexOf(es, id) == |es| ==> RemoveFirst(es, id) == es
    ensures es == [] ==> IndexOf(es, id) == 0
  {}

  lemma WithoutKeepsKeys<T>(es: seq<Entry<T>>, k: nat)
    requires DistinctKeys(es) && k < |es|
    ensures DistinctKeys(Without(es, k))
  {
    var r := Without(es, k);
    assert forall i | 0 <= i < |r| :: r[i] == es[if i < k then i else i + 1];
  }

  lemma {:induction false} RemovedKeepsKeys<T>(es: seq<Entry<T>>, key: int)
    requires DistinctKeys(es)
    ensures DistinctKeys(RemoveFirst(es, key))
    ensures IndexOf(RemoveFirst(es, key), key) == |RemoveFirst(es, key)|
  {
    var r := RemoveFirst(es, key);
    var k := IndexOf(es, key);
    assert forall i | 0 <= i < |r| :: r[i] == es[if i < k then i else i + 1];
    IndexOfIs(r, key, |r|);
  }
}

/** The same on the heap: a list of lists. */
module Instances {
  import opened TshList
  import opened InstanceModel

  /** The module manager, which records the calls made to it. */
  class Kernel {
    var calls: seq<Call>

    constructor ()
      ensures calls == []
    {
      calls := [];
    }
  }

  class Store {
    const instances: List<List<Uid>>
    ghost var lists: seq<List<Uid>>  // the data of the nodes of instances
    ghost var Repr: set<object>

    /** The list at i is the data of node i, is well formed and lies in the representation. */
    ghost predicate ListOk(i: nat)
      requires i < |lists| == |instances.nodes|
      reads this, instances, Repr
    {
      && instances.nodes[i] in Repr && lists[i] in Repr
      && instances.nodes[i].data == lists[i]
      && (forall x | x in lists[i].nodes :: x in Repr)
      && lists[i].Valid()
    }

    /** No two instance lists are the same list or share a node. */
    ghost predicate Apart(i: nat, j: nat)
      requires i < |lists| && j < |lists|
      reads this, lists[i], lists[j]
    {
      lists[i] != lists[j] && forall x | x in lists[i].nodes :: x !in lists[j].nodes
    }

    /** The process list is well formed with distinct pids, and so is each instance list. */
    ghost predicate Valid()
      reads this, Repr
    {
      && this in Repr && instances in Repr
      && (forall x | x in instances.nodes :: x in Repr)
      && instances.Valid()
      && |lists| == |instances.nodes|
      && (forall i | 0 <= i < |lists| :: ListOk(i))
      && (forall i, j | 0 <= i < |lists| && 0 <= j < |lists| && i != j :: ListOk(i) && ListOk(j) && Apart(i, j))
      && DistinctKeys(instances.Entries())
    }

    ghost function Contents(): (m: Model)
      requires Valid()
      reads this, Repr
      ensures |m| == |lists|
      ensures forall i | 0 <= i < |m| :: m[i] == Entry(instances.nodes[i].key, lists[i].Entries())
    {
      seq(|lists|, i requires Valid() && 0 <= i < |lists| reads this, Repr =>
        assert ListOk(i);
        Entry(instances.nodes[i].key, lists[i].Entries()))
    }

    constructor ()
      ensures Valid() && fresh(Repr) && Contents() == []
    {
      instances := new List<List<Uid>>();
      lists := [];
      Repr := {this, instances};
    }

    /** When only the list at k has changed, and grown by new nodes at most, the store is well
        formed and the other processes are as they were. */
    twostate lemma OnlyOneChanged(k: nat)
      requires old(Valid()) && k < |lists|
      requires lists == old(lists) && Repr >= old(Repr) && instances.Same()
      requires lists[k].Valid()
      requires forall x | x in lists[k].nodes :: x in Repr && (x in old(lists[k].nodes) || fresh(x))
      requires forall j | 0 <= j < |lists| && j != k :: lists[j].Same()
      ensures Valid()
      ensures Contents() == old(Contents())[k := Entry(instances.nodes[k].key, lists[k].Entries())]
    {
      instances.Untouched();
      forall j | 0 <= j < |lists| ensures ListOk(j) && (j != k ==> lists[j].Entries() == old(lists[j].Entries())) {
        assert old(ListOk(j)) && instances.nodes[j] in instances.nodes;
        if j != k { lists[j].Untouched(); }
      }
      forall i, j | 0 <= i < |lists| && 0 <= j < |lists| && i != j ensures Apart(i, j) {
        assert old(ListOk(i)) && old(ListOk(j)) && old(Apart(i, j)) && old(Apart(j, i));
      }
    }

    /** list_push on the instance list of process k. */
    method PushInstance(l: List<Uid>, ghost k: nat, id: int, uid: Uid, room: bool)
      requires Valid() && k < |lists| && l == lists[k]
      modifies Repr
      ensures Valid() && fresh(Repr - old(Repr))
      ensures var m := old(Contents());
              Contents() == if room then m[k := Entry(m[k].key, m[k].data + [Entry(id, uid)])] else m
    {
      hide List.Valid, List.Entries, IndexOf, RemoveFirst, LinkedAt, DistinctKeys;
      assert ListOk(k);
      var node := l.Push(id, uid, room);
      if node != null { Repr := Repr + {node}; }
      forall j | 0 <= j < |lists| && j != k ensures lists[j].Same() {
        assert old(ListOk(j)) && old(Apart(j, k));
      }
      OnlyOneChanged(k);
    }

    /** list_remove on the instance list of process k, which names the node that follows. */
    method RemoveInstance(l: List<Uid>, ghost k: nat, id: int) returns (next: Node?<Uid>)
      requires Valid() && k < |lists| && l == lists[k]
      modifies Repr - {this, instances} - (set x | x in instances.nodes)
      ensures Valid() && lists == old(lists)
      ensures var m := old(Contents());
              Contents() == m[k := Entry(m[k].key, RemoveFirst(m[k].data, id))]
      ensures var j := IndexOf(old(l.Entries()), id);
              if j < |old(l.nodes)| then
                l.nodes == Without(old(l.nodes), j) &&
                next == (if j + 1 < |old(l.nodes)| then old(l.nodes)[j + 1] else null)
              else l.nodes == old(l.nodes) && next == null
    {
      hide List.Valid, List.Entries, IndexOf, RemoveFirst, LinkedAt, DistinctKeys;
      assert ListOk(k);
      next := l.Remove(id);
      forall j | 0 <= j < |lists| && j != k ensures lists[j].Same() {
        assert old(ListOk(j)) && old(Apart(j, k));
      }
      OnlyOneChanged(k);
    }

    /** When a process with an empty list of its own has been added, and nothing else touched,
        the store is well formed. */
    twostate lemma OneAdded(pid: int, new l: List<Uid>)
      requires old(Valid()) && (forall i | 0 <= i < |old(Contents())| :: old(Contents())[i].key != pid)
      requires lists == old(lists) + [l] && Repr >= old(Repr) + {l} && fresh(l)
      requires instances.Valid() && instances.Entries() == old(instances.Entries()) + [Entry(pid, l)]
      requires forall x | x in instances.nodes :: x in Repr
      requires l.Valid() && l.nodes == []
      requires forall j | 0 <= j < |old(lists)| :: lists[j].Same()
      ensures Valid()
      ensures Contents() == old(Contents()) + [Entry(pid, [])]
    {
      hide List.Valid, List.Entries, LinkedAt;
      ghost var k := |old(lists)|;
      assert DistinctKeys(instances.Entries()) by {
        assert forall i | 0 <= i < k :: old(instances.Entries())[i].key == old(Contents())[i].key;
      }
      forall j | 0 <= j < |lists| ensures ListOk(j) && (j < k ==> lists[j].Entries() == old(lists[j].Entries())) {
        assert instances.Entries()[j].data == lists[j] by {
          if j < k { assert old(ListOk(j)) && old(instances.Entries())[j].data == lists[j]; }
        }
        if j < k {
          assert old(ListOk(j));
          lists[j].Untouched();
        }
      }
      forall i, j | 0 <= i < |lists| && 0 <= j < |lists| && i != j ensures Apart(i, j) {
        if i < k { assert old(ListOk(i)); }
        if j < k { assert old(ListOk(j)); }
        if i < k && j < k { assert old(Apart(i, j)); }
      }
    }

    /** A store none of whose objects was written to is the store it was. */
    twostate lemma NothingChanged()
      requires old(Valid()) && Repr == old(Repr) && unchanged(old(Repr))
      ensures Valid() && Contents() == old(Contents())
    {
      hide ListOk, Apart, List.Valid, List.Entries, LinkedAt, DistinctKeys;
    }

    lemma ProcessList()
      requires Valid()
      ensures this in Repr && instances in Repr && instances.Valid() && |lists| == |instances.nodes|
      ensures forall x | x in instances.nodes :: x in Repr
      ensures |Contents()| == |lists|
    {}

    /** What list_push of a process changes: its node, with an empty list of its own, comes to
        the end of the process list. */
    method PushProcess(pid: int, room: bool) returns (node: Node?<List<Uid>>, ghost l: List<Uid>)
      requires Valid()
      modifies Repr
      ensures fresh(l) && l.Valid() && l.nodes == []
      ensures !room ==> node == null && unchanged(old(Repr))
      ensures room ==>
        && node != null && fresh(node) && node.data == l
        && lists == old(lists) + [l] && Repr == old(Repr) + {l, node}
        && instances.Valid() && instances.Entries() == old(instances.Entries()) + [Entry(pid, l)]
        && (forall x | x in instances.nodes :: x in Repr)
        && (forall j | 0 <= j < |old(lists)| :: lists[j].Same())
    {
      hide Contents, Valid, ListOk, Apart, List.Valid, List.Entries, IndexOf, RemoveFirst, LinkedAt, DistinctKeys;
      ProcessList();
      var data := new List<Uid>();
      l := data;
      node := instances.Push(pid, data, room);
      if node != null {
        lists := lists + [l];
        Repr := Repr + {l, node};
      }
    }

    /** list_push of a process with no instances yet. */
    method AddProcess(pid: int, room: bool) returns (node: Node?<List<Uid>>)
      requires Valid() && IndexOf(Contents(), pid) == |Contents()|
      modifies Repr
      ensures Valid() && fresh(Repr - old(Repr))
      ensures !room ==> node == null && Contents() == old(Contents())
      ensures room ==> node != null && |lists| > 0 && node.data == lists[|lists| - 1] &&
                       Contents() == old(Contents()) + [Entry(pid, [])]
    {
      hide Contents, Valid, ListOk, Apart, List.Valid, List.Entries, IndexOf, RemoveFirst, LinkedAt, DistinctKeys;
      ghost var l;
      node, l := PushProcess(pid, room);
      if node == null {
        NothingChanged();
      } else {
        OneAdded(pid, l);
      }
    }

    /** create_instance */
    method CreateInstance(id: int, pid: int, uid: Uid, roomPid: bool, roomInstance: bool)
      requires Valid()
      modifies Repr
      ensures Valid() && fresh(Repr - old(Repr))
      ensures Contents() == Created(old(Contents()), id, pid, uid, roomPid, roomInstance)
    {
      hide Contents, List.Valid, List.Entries, LinkedAt, DistinctKeys;
      ghost var m := Contents();
      var pidNode := FindProcess(pid);
      ghost var k := IndexOf(m, pid);
      if pidNode == null {
        pidNode := AddProcess(pid, roomPid);
        if pidNode == null { return; }
      }
      assert pidNode.data == lists[k];
      PushInstance(pidNode.data, k, id, uid, roomInstance);
    }

    method FindProcess(pid: int) returns (node: Node?<List<Uid>>)
      requires Valid()
      ensures var k := IndexOf(Contents(), pid);
              if k < |Contents()| then node == instances.nodes[k] && node.data == lists[k] else node == null
    {
      node := instances.Find(pid);
      SameKeysSameIndex(instances.Entries(), Contents(), pid);
      if node != null { assert ListOk(IndexOf(Contents(), pid)); }
    }

    /** The node of process k. */
    ghost predicate At(node: Node<List<Uid>>, k: nat)
      reads this, Repr
    {
      Valid() && k < |lists| && node == instances.nodes[k]
    }

    /** unload_plugin */
    method UnloadPlugin(id: int, kernel: Kernel)
      requires Valid() && kernel !in Repr
      modifies Repr, kernel
      ensures Valid() && Repr == old(Repr)
      ensures Contents() == Unloaded(old(Contents()), id)
      ensures kernel.calls == old(kernel.calls) + UnloadCalls(old(Contents()), id)
    {
      hide Contents, Valid, At, Unloaded, UnloadCalls, UnloadCall, RemoveFirst, PartlyUnloaded, DistinctKeys;
      ghost var m := Contents();
      UnloadEnds(m, id);
      var pidList := FirstProcess();
      if pidList == null { return; }
      ghost var k := 0;
      while true
        invariant Valid() && unchanged(this) && k < |lists| == |m| && pidList != null && At(pidList, k)
        invariant Contents() == PartlyUnloaded(m, id, k)
        invariant kernel.calls == old(kernel.calls) + UnloadCalls(m[..k], id)
        decreases |m| - k
      {
        UnloadStep(m, id, k);
        UnloadFrom(pidList, k, id, kernel);
        pidList := NextProcess(pidList, k);
        k := k + 1;
        if pidList == null { break; }
      }
    }

    method FirstProcess() returns (node: Node?<List<Uid>>)
      requires Valid()
      ensures if |lists| == 0 then node == null else node != null && At(node, 0)
    {
      node := instances.head;
    }

    method NextProcess(node: Node<List<Uid>>, ghost k: nat) returns (next: Node?<List<Uid>>)
      requires At(node, k)
      ensures if k + 1 < |lists| then next != null && At(next, k + 1) else next == null
    {
      assert LinkedAt(instances.nodes, k);
      next := node.next;
    }

    /** list_find on the instance list of process k. */
    method FindInstance(pidNode: Node<List<Uid>>, l: List<Uid>, ghost k: nat, id: int) returns (instance: Node?<Uid>)
      requires At(pidNode, k) && l == pidNode.data
      ensures l == lists[k] && pidNode.key == Contents()[k].key && |l.nodes| == |Contents()[k].data|
      ensures var es := Contents()[k].data;
              var j := IndexOf(es, id);
              if j < |es| then instance != null && instance.key == id && instance.data == es[j].data
              else instance == null
    {
      hide List.Valid, LinkedAt, DistinctKeys, IndexOf, Apart;
      assert ListOk(k);
      instance := l.Find(id);
      assert Contents()[k].data == l.Entries();
    }

    /** The body of unload_plugin's loop. */
    method UnloadFrom(pidNode: Node<List<Uid>>, ghost k: nat, id: int, kernel: Kernel)
      requires At(pidNode, k) && kernel !in Repr
      modifies Repr - {this, instances} - (set x | x in instances.nodes), kernel
      ensures Valid() && At(pidNode, k)
      ensures var m := old(Contents());
              Contents() == m[k := Entry(m[k].key, RemoveFirst(m[k].data, id))] &&
              kernel.calls == old(kernel.calls) + UnloadCall(m[k], id)
    {
      hide Contents, Valid, ListOk, Apart, List.Valid, List.Entries, LinkedAt, DistinctKeys, IndexOf;
      var l := pidNode.data;
      var instance := FindInstance(pidNode, l, k, id);
      if instance != null {
        kernel.calls := kernel.calls + [StopUnload(pidNode.key, instance.data)];
        var _ := RemoveInstance(l, k, instance.key);
      }
    }

    /** unload_plugins_for_pid */
    method UnloadPluginsForPid(pid: int, kernel: Kernel)
      requires Valid() && kernel !in Repr
      modifies Repr, kernel
      ensures Valid() && Repr == old(Repr)
      ensures Contents() == RemoveFirst(old(Contents()), pid)
      ensures var k := IndexOf(old(Contents()), pid);
              kernel.calls == old(kernel.calls) +
                if k < |old(Contents())| then StopCalls(pid, old(Contents())[k].data) else []
    {
      hide Contents, List.Valid, List.Entries, LinkedAt, DistinctKeys, IndexOf, StopCalls;
      ghost var m := Contents();
      var pidNode := FindProcess(pid);
      if pidNode == null { return; }
      ghost var k := IndexOf(m, pid);
      StopAll(pidNode.data, k, pid, kernel);
      SameKeysSameIndex(m, Contents(), pid);
      RemoveProcess(pid, k);
      assert Contents() == Without(m, k);
    }

    /** The node is the head of the list of process k, null when that is empty. */
    ghost predicate HeadOf(l: List<Uid>, k: nat, node: Node?<Uid>)
      reads this, Repr
    {
      Valid() && k < |lists| && l == lists[k] && ListOk(k) &&
      if |l.nodes| == 0 then node == null else node == l.nodes[0]
    }

    /** The loop of unload_plugins_for_pid: each instance is stopped and taken out, in order. */
    method StopAll(l: List<Uid>, ghost k: nat, pid: int, kernel: Kernel)
      requires Valid() && k < |lists| && l == lists[k] && kernel !in Repr
      modifies Repr - {this, instances} - (set x | x in instances.nodes), kernel
      ensures Valid() && Repr == old(Repr)
      ensures Contents() == old(Contents())[k := Entry(old(Contents())[k].key, [])]
      ensures kernel.calls == old(kernel.calls) + StopCalls(pid, old(Contents())[k].data)
    {
      hide Contents, Valid, HeadOf, ListOk, Apart, List.Valid, List.Entries, LinkedAt, DistinctKeys, StopCalls,
        StoppedTo;
      ghost var m := Contents();
      ghost var es := m[k].data;
      StoppedEnds(m, k);
      var instance := FirstInstance(l, k);
      if instance == null { return; }
      ghost var i := 0;
      while true
        invariant Valid() && unchanged(this) && HeadOf(l, k, instance)
        invariant i < |es| && instance != null
        invariant Contents() == StoppedTo(m, k, i)
        invariant kernel.calls + StopCalls(pid, es[i..]) == old(kernel.calls) + StopCalls(pid, es)
        decreases |es| - i
      {
        StoppedNext(m, k, pid, i);
        instance := StopFirst(l, k, instance, pid, kernel);
        i := i + 1;
        if instance == null { break; }
      }
    }

    method FirstInstance(l: List<Uid>, ghost k: nat) returns (node: Node?<Uid>)
      requires Valid() && k < |lists| && l == lists[k]
      ensures HeadOf(l, k, node) && (node == null <==> Contents()[k].data == [])
    {
      assert ListOk(k);
      node := l.head;
    }

    /** The body of that loop. */
    method StopFirst(l: List<Uid>, ghost k: nat, instance: Node<Uid>, pid: int, kernel: Kernel)
      returns (next: Node?<Uid>)
      requires HeadOf(l, k, instance) && kernel !in Repr
      modifies Repr - {this, instances} - (set x | x in instances.nodes), kernel
      ensures Valid() && HeadOf(l, k, next) && Repr == old(Repr)
      ensures var m := old(Contents());
              m[k].data != [] && Contents() == m[k := Entry(m[k].key, m[k].data[1..])] &&
              kernel.calls == old(kernel.calls) + [Stop(pid, m[k].data[0].data)] &&
              (next == null <==> Contents()[k].data == [])
    {
      hide Contents, List.Valid, LinkedAt, DistinctKeys, IndexOf, RemoveFirst;
      ghost var es := Contents()[k].data;
      RemoveHead(es);
      assert instance.key == es[0].key && instance.data == es[0].data;
      kernel.calls := kernel.calls + [Stop(pid, instance.data)];
      next := RemoveInstance(l, k, instance.key);
      assert ListOk(k);
    }

    /** list_remove of a process. */
    method RemoveProcess(pid: int, ghost k: nat)
      requires Valid() && k < |lists| && k == IndexOf(Contents(), pid)
      modifies Repr
      ensures Valid() && Repr == old(Repr)
      ensures Contents() == Without(old(Contents()), k)
    {
      hide Contents, List.Valid, List.Entries, LinkedAt, DistinctKeys, IndexOf;
      SameKeysSameIndex(instances.Entries(), Contents(), pid);
      var _ := instances.Remove(pid);
      forall j | 0 <= j < |lists| ensures lists[j].Same() { assert old(ListOk(j)); }
      lists := Without(lists, k);
      OneRemoved(k);
    }

    /** The lists that remain are well formed and hold what they held. */
    twostate lemma OthersOk(k: nat)
      requires old(Valid()) && k < |old(lists)| && lists == Without(old(lists), k) && Repr == old(Repr)
      requires instances.nodes == Without(old(instances.nodes), k)
      requires instances.Entries() == Without(old(instances.Entries()), k)
      requires forall j | 0 <= j < |old(lists)| :: old(lists)[j].Same()
      ensures forall j | 0 <= j < |lists| ::
                ListOk(j) && lists[j].Entries() == old(lists[if j < k then j else j + 1].Entries())
    {
      hide List.Valid, List.Entries, LinkedAt, DistinctKeys, Apart;
      forall j | 0 <= j < |lists|
        ensures ListOk(j) && lists[j].Entries() == old(lists[if j < k then j else j + 1].Entries())
      {
        var o := if j < k then j else j + 1;
        assert old(ListOk(o)) && instances.Entries()[j] == old(instances.Entries())[o];
        old(lists)[o].Untouched();
      }
    }

    /** They share no more than they did. */
    twostate lemma OthersApart(k: nat)
      requires old(Valid()) && k < |old(lists)| && lists == Without(old(lists), k)
      requires forall j | 0 <= j < |old(lists)| :: old(lists)[j].Same()
      ensures forall i, j | 0 <= i < |lists| && 0 <= j < |lists| && i != j :: Apart(i, j)
    {
      hide ListOk, List.Valid, List.Entries, LinkedAt, DistinctKeys;
      forall i, j | 0 <= i < |lists| && 0 <= j < |lists| && i != j ensures Apart(i, j) {
        var p, q := if i < k then i else i + 1, if j < k then j else j + 1;
        assert lists[i] == old(lists)[p] && lists[j] == old(lists)[q];
        assert old(lists)[p].Same() && old(lists)[q].Same() && old(Apart(p, q));
      }
    }

    /** When a process has been taken out, and nothing else touched, the store is well formed. */
    twostate lemma OneRemoved(k: nat)
      requires old(Valid()) && k < |old(lists)| && lists == Without(old(lists), k) && Repr == old(Repr)
      requires instances.Valid() && instances.nodes == Without(old(instances.nodes), k)
      requires instances.Entries() == Without(old(instances.Entries()), k)
      requires forall j | 0 <= j < |old(lists)| :: old(lists)[j].Same()
      ensures Valid()
      ensures Contents() == Without(old(Contents()), k)
    {
      hide ListOk, Apart, List.Valid, List.Entries, LinkedAt, DistinctKeys;
      WithoutKeepsKeys(old(instances.Entries()), k);
      OthersOk(k);
      OthersApart(k);
    }
  }
}
