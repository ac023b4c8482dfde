/** The intrusive client list of the FTP server and the threads that share it. Memory is a
    map from addresses, so a freed node is an address that is no longer in the map. */
module ClientTable {
  type Ptr = nat
  const NULL: Ptr := 0

  type Tid = nat

  /** ftpvita_client_info_t, as far as the list is concerned. */
  datatype Client = Client(prev: Ptr, next: Ptr, thid: Tid)

  /** The heap, client_list and number_clients. */
  datatype Table = Table(mem: map<Ptr, Client>, head: Ptr, count: int)

  function Load(mem: map<Ptr, Client>, p: Ptr): Client {
    if p in mem then mem[p] else Client(NULL, NULL, 0)
  }

  function SetNext(mem: map<Ptr, Client>, p: Ptr, q: Ptr): map<Ptr, Client> {
    if p in mem then mem[p := mem[p].(next := q)] else mem
  }

  function SetPrev(mem: map<Ptr, Client>, p: Ptr, q: Ptr): map<Ptr, Client> {
    if p in mem then mem[p := mem[p].(prev := q)] else mem
  }

  function First(ns: seq<Ptr>): Ptr {
    if ns == [] then NULL else ns[0]
  }

  predicate Distinct(ns: seq<Ptr>) {
    forall i, j | 0 <= i < j < |ns| :: ns[i] != ns[j]
  }

  /** Node i is allocated and its next is the node after it. */
  predicate NextAt(mem: map<Ptr, Client>, ns: seq<Ptr>, i: nat)
    requires i < |ns|
  {
    && ns[i] != NULL && ns[i] in mem
    && mem[ns[i]].next == if i + 1 < |ns| then ns[i + 1] else NULL
  }

  predicate PrevAt(mem: map<Ptr, Client>, ns: seq<Ptr>, i: nat)
    requires i < |ns|
  {
    ns[i] in mem && mem[ns[i]].prev == if i > 0 then ns[i - 1] else NULL
  }

  /** Following next from the first node visits exactly ns, once each, and ends. */
  predicate Chain(mem: map<Ptr, Client>, ns: seq<Ptr>) {
    Distinct(ns) && forall i | 0 <= i < |ns| :: NextAt(mem, ns, i)
  }

  /** A well-formed acyclic doubly linked list of the nodes ns, with the right count. */
  predicate IsList(t: Table, ns: seq<Ptr>) {
    && Chain(t.mem, ns) && t.head == First(ns) && t.count == |ns|
    && forall i | 0 <= i < |ns| :: PrevAt(t.mem, ns, i)
  }

  lemma FirstNullIff(mem: map<Ptr, Client>, ns: seq<Ptr>)
    requires Chain(mem, ns)
    ensures First(ns) == NULL <==> ns == []
  {
    if ns != [] { assert NextAt(mem, ns, 0); }
  }

  /** client_list_add between the mutex calls. */
  function LinkFront(t: Table, c: Ptr): Table {
    if t.head == NULL then
      Table(SetNext(SetPrev(t.mem, c, NULL), c, NULL), c, t.count + 1)
    else
      Table(SetPrev(SetPrev(SetNext(t.mem, c, t.head), t.head, c), c, NULL), c, t.count + 1)
  }

  /** client_list_delete between the mutex calls. */
  function Unlink(t: Table, c: Ptr): Table {
    var prev, next := Load(t.mem, c).prev, Load(t.mem, c).next;
    var m1 := if prev != NULL then SetNext(t.mem, prev, next) else t.mem;
    var m2 := if next != NULL then SetPrev(m1, next, prev) else m1;
    Table(m2, if c == t.head then next else t.head, t.count - 1)
  }

  function Without(ns: seq<Ptr>, k: nat): seq<Ptr>
    requires k < |ns|
  {
    ns[..k] + ns[k + 1..]
  }

  lemma {:induction false} LinkFrontAdds(t: Table, c: Ptr, ns: seq<Ptr>)
    requires IsList(t, ns) && c != NULL && c in t.mem && c !in ns
    ensures IsList(LinkFront(t, c), [c] + ns)
    ensures LinkFront(t, c).mem.Keys == t.mem.Keys
    ensures forall p | p in t.mem :: LinkFront(t, c).mem[p].thid == t.mem[p].thid
  {
    var u := LinkFront(t, c);
    var ms := [c] + ns;
    assert forall i | 0 <= i < |ns| :: ms[i + 1] == ns[i];
    if ns != [] { assert NextAt(t.mem, ns, 0); }
    forall i | 0 <= i < |ms| ensures NextAt(u.mem, ms, i) && PrevAt(u.mem, ms, i) {
      if i > 0 { assert NextAt(t.mem, ns, i - 1) && PrevAt(t.mem, ns, i - 1); }
    }
  }

  lemma {:induction false} UnlinkRemoves(t: Table, ns: seq<Ptr>, k: nat)
    requires IsList(t, ns) && k < |ns|
    ensures IsList(Unlink(t, ns[k]), Without(ns, k))
    ensures Unlink(t, ns[k]).mem.Keys == t.mem.Keys
    ensures forall p | p in t.mem :: Unlink(t, ns[k]).mem[p].thid == t.mem[p].thid
  {
    var c := ns[k];
    var u := Unlink(t, c);
    var ms := Without(ns, k);
    assert NextAt(t.mem, ns, k) && PrevAt(t.mem, ns, k);
    if k > 0 { assert NextAt(t.mem, ns, k - 1) && PrevAt(t.mem, ns, k - 1); }
    if k + 1 < |ns| { assert NextAt(t.mem, ns, k + 1) && PrevAt(t.mem, ns, k + 1); }
    forall i | 0 <= i < |ms| ensures NextAt(u.mem, ms, i) && PrevAt(u.mem, ms, i) {
      var j := if i < k then i else i + 1;
      assert NextAt(t.mem, ns, j) && PrevAt(t.mem, ns, j);
      if j > 0 { assert NextAt(t.mem, ns, j - 1) && ns[j - 1] != ns[j]; }
      if j + 1 < |ns| { assert NextAt(t.mem, ns, j + 1) && ns[j] != ns[j + 1]; }
    }
  }

  /** The globals of ftpvita.c and the two functions that write them, statement by
      statement. The caller holds the mutex. */
  class ClientList {
    var mem: map<Ptr, Client>
    var head: Ptr
    var count: int

    function Value(): Table
      reads this
    {
      Table(mem, head, count)
    }

    method Add(c: Ptr, ghost ns: seq<Ptr>)
      requires IsList(Value(), ns) && c != NULL && c in mem && c !in ns
      modifies this
      ensures Value() == LinkFront(old(Value()), c) && IsList(Value(), [c] + ns)
    {
      LinkFrontAdds(Value(), c, ns);
      if head == NULL {
        head := c;
        mem := mem[c := mem[c].(prev := NULL)];
        mem := mem[c := mem[c].(next := NULL)];
      } else {
        assert head == ns[0] && NextAt(mem, ns, 0);
        mem := mem[c := mem[c].(next := head)];
        mem := mem[head := mem[head].(prev := c)];
        mem := mem[c := mem[c].(prev := NULL)];
        head := c;
      }
      count := count + 1;
    }

    method Delete(c: Ptr, ghost ns: seq<Ptr>, ghost k: nat)
      requires k < |ns| && IsList(Value(), ns) && c == ns[k]
      modifies this
      ensures Value() == Unlink(old(Value()), c) && IsList(Value(), Without(ns, k))
    {
      UnlinkRemoves(Value(), ns, k);
      assert NextAt(mem, ns, k) && PrevAt(mem, ns, k);
      if k > 0 { assert NextAt(mem, ns, k - 1); }
      if k + 1 < |ns| { assert NextAt(mem, ns, k + 1); }
      if mem[c].prev != NULL {
        mem := mem[mem[c].prev := mem[mem[c].prev].(next := mem[c].next)];
      }
      if mem[c].next != NULL {
        mem := mem[mem[c].next := mem[mem[c].next].(prev := mem[c].prev)];
      }
      if c == head {
        head := mem[c].next;
      }
      count := count - 1;
    }
  }
}
