/** The pool of idle connection senders: one first-in first-out queue per backend address. */
module ConnectionPool {
  import opened Options

  type Addr = nat
  type Sender = nat

  function QueueOf(idle: map<Addr, seq<Sender>>, addr: Addr): (q: seq<Sender>) {
    if addr in idle then idle[addr] else []
  }

  /** Position k holds the first open sender, and `rest` is what stands behind it. */
  ghost predicate FirstOpenAt(queue: seq<Sender>, closed: set<Sender>, rest: seq<Sender>, k: int) {
    && 0 <= k < |queue| && queue[k] !in closed && rest == queue[k + 1..]
    && forall i :: 0 <= i < k ==> queue[i] in closed
  }

  /** Popping gives the first open sender and leaves what stands behind it, or finds only closed ones. */
  ghost predicate PopsFirstOpen(queue: seq<Sender>, closed: set<Sender>, r: Option<Sender>, rest: seq<Sender>) {
    if r.None? then rest == [] && forall i :: 0 <= i < |queue| ==> queue[i] in closed
    else exists k :: FirstOpenAt(queue, closed, rest, k) && queue[k] == r.value
  }

  lemma FirstOpenIsUnique(queue: seq<Sender>, closed: set<Sender>, rest: seq<Sender>, k: int, rest': seq<Sender>, j: int)
    requires FirstOpenAt(queue, closed, rest, k) && FirstOpenAt(queue, closed, rest', j)
    ensures k == j
  {
  }

  /** That description allows one result only. */
  lemma PopIsDetermined(
    queue: seq<Sender>, closed: set<Sender>, r: Option<Sender>, rest: seq<Sender>, r': Option<Sender>, rest': seq<Sender>)
    requires PopsFirstOpen(queue, closed, r, rest) && PopsFirstOpen(queue, closed, r', rest')
    ensures r == r' && rest == rest'
  {
    if r.Some? && r'.Some? {
      var k :| FirstOpenAt(queue, closed, rest, k) && queue[k] == r.value;
      var j :| FirstOpenAt(queue, closed, rest', j) && queue[j] == r'.value;
      FirstOpenIsUnique(queue, closed, rest, k, rest', j);
    }
  }

  class Pool {
    var idle: map<Addr, seq<Sender>>

    constructor ()
      ensures idle == map[]
    {
      idle := map[];
    }

    /** Takes the oldest open sender for the address and throws away the closed ones before it. */
    method TryPop(addr: Addr, closed: set<Sender>) returns (r: Option<Sender>)
      modifies this
      ensures PopsFirstOpen(QueueOf(old(idle), addr), closed, r, QueueOf(idle, addr))
      ensures idle.Keys == old(idle).Keys
      ensures forall a :: a != addr ==> QueueOf(idle, a) == QueueOf(old(idle), a)
    {
      if addr in idle {
        ghost var queue := idle[addr];
        ghost var k := 0;
        while idle[addr] != []
          invariant idle.Keys == old(idle).Keys
          invariant forall a :: a != addr ==> QueueOf(idle, a) == QueueOf(old(idle), a)
          invariant 0 <= k <= |queue| && idle[addr] == queue[k..]
          invariant forall i :: 0 <= i < k ==> queue[i] in closed
          decreases |idle[addr]|
        {
          var sender := idle[addr][0];
          idle := idle[addr := idle[addr][1..]];
          if sender !in closed {
            assert FirstOpenAt(queue, closed, idle[addr], k);
            return Some(sender);
          }
          k := k + 1;
        }
      }
      return None;
    }

    method Push(addr: Addr, sender: Sender, closed: set<Sender>)
      modifies this
      ensures QueueOf(idle, addr) == QueueOf(old(idle), addr) + (if sender in closed then [] else [sender])
      ensures forall a :: a != addr ==> QueueOf(idle, a) == QueueOf(old(idle), a)
    {
      if sender in closed {
        return;
      }
      if addr !in idle {
        idle := idle[addr := []];
      }
      idle := idle[addr := idle[addr] + [sender]];
    }
  }
}
