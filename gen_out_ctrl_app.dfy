// The application side of the general output controllers: a three-slot
// ring buffer of state-change requests, filled by the other tasks and drained
// in order by the output-control task, which applies each request to one
// controller or to all of them and then advances the controllers' timing.

module GenOutCtrlApp {
  import opened Bytes
  import opened GenOutCtrl

  /** STATE_CHANGE_REQ_CIRC_BUF_NUM_SLOTS. */
  const NumSlots: nat := 3

  /** StateCtrl_t: a request to put one controller, or all of them, into a state. */
  datatype Request = Request(setAll: bool, id: nat, state: nat)

  /** A request the controllers can carry out: a set-all request, or one naming an existing controller. */
  predicate Addressed(r: Request)
  {
    r.setAll || r.id < NumIds
  }

  /** The position after `i` in the ring, wrapping from the last slot to the first. */
  function Next(i: nat): (r: nat)
    requires i < NumSlots
    ensures r < NumSlots && r == (i + 1) % NumSlots
  {
    if i == NumSlots - 1 then 0 else i + 1
  }

  /** The `n` requests stored from position `head` on, oldest first. */
  function Window(buf: seq<Request>, head: nat, n: nat): (w: seq<Request>)
    requires |buf| == NumSlots && head < NumSlots && n <= NumSlots
    ensures |w| == n
    decreases n
  {
    if n == 0 then [] else [buf[head]] + Window(buf, Next(head), n - 1)
  }

  /** The slot `k` positions past `head`. */
  function Pos(head: nat, k: nat): (p: nat)
    ensures p < NumSlots
  {
    (head + k) % NumSlots
  }

  /** One more slot of the window adds the request stored just past its end. */
  lemma {:induction false} WindowSnoc(buf: seq<Request>, head: nat, n: nat)
    requires |buf| == NumSlots && head < NumSlots && n < NumSlots
    ensures Window(buf, head, n + 1) == Window(buf, head, n) + [buf[Pos(head, n)]]
    decreases n
  {
    if n > 0 {
      WindowSnoc(buf, Next(head), n - 1);
      assert Pos(Next(head), n - 1) == Pos(head, n);
    }
  }

  /** Writing the slot `m` positions past the head, outside a window of `n <= m` slots, leaves the window as it was. */
  lemma {:induction false} WindowFrame(buf: seq<Request>, head: nat, n: nat, m: nat, r: Request)
    requires |buf| == NumSlots && head < NumSlots && n <= m < NumSlots
    ensures Window(buf[Pos(head, m) := r], head, n) == Window(buf, head, n)
    decreases n
  {
    if n > 0 {
      assert Pos(Next(head), m - 1) == Pos(head, m);
      assert Pos(head, m) != head;
      WindowFrame(buf, Next(head), n - 1, m - 1, r);
    }
  }

  /** Storing a request at the tail of a window that is not full appends it to the window. */
  lemma WindowPush(buf: seq<Request>, head: nat, n: nat, r: Request)
    requires |buf| == NumSlots && head < NumSlots && n < NumSlots
    ensures Window(buf[Pos(head, n) := r], head, n + 1) == Window(buf, head, n) + [r]
  {
    WindowSnoc(buf[Pos(head, n) := r], head, n);
    WindowFrame(buf, head, n, n, r);
  }

  // ---------------------------------------------------------------------
  // What a request does to the bank of controllers. The bank functions
  // recurse over the bank, controller by controller.

  /** Every controller keeps its invariant and has a current state. */
  ghost predicate AllReady(cs: seq<Ctrl>)
    decreases |cs|
  {
    cs == [] || (Ready(cs[0]) && AllReady(cs[1..]))
  }

  lemma {:induction false} AllReadyAt(cs: seq<Ctrl>, i: nat)
    requires AllReady(cs) && i < |cs|
    ensures Ready(cs[i])
    decreases i
  {
    if i > 0 {
      AllReadyAt(cs[1..], i - 1);
    }
  }

  lemma {:induction false} AllReadyIntro(cs: seq<Ctrl>)
    requires forall i :: 0 <= i < |cs| ==> Ready(cs[i])
    ensures AllReady(cs)
    decreases |cs|
  {
    if cs != [] {
      assert forall i :: 0 <= i < |cs| - 1 ==> cs[1..][i] == cs[i + 1];
      AllReadyIntro(cs[1..]);
    }
  }

  /** Replacing one controller of a ready bank by a ready one leaves the bank ready. */
  lemma {:induction false} AllReadyUpdate(cs: seq<Ctrl>, i: nat, c: Ctrl)
    requires AllReady(cs) && i < |cs| && Ready(c)
    ensures AllReady(cs[i := c])
    decreases i
  {
    if i > 0 {
      AllReadyUpdate(cs[1..], i - 1, c);
      assert cs[i := c][1..] == cs[1..][i - 1 := c];
    }
  }

  /** GenOutCtrl_StateSetAll on the bank: it leaves every controller ready. */
  function SwitchedAll(cs: seq<Ctrl>, s: nat): (r: seq<Ctrl>)
    requires AllReady(cs)
    ensures |r| == |cs| && AllReady(r)
    decreases |cs|
  {
    if cs == [] then []
    else
      SwitchedStartedReady(cs[0], s);
      var r := [Switched(cs[0], s)] + SwitchedAll(cs[1..], s);
      assert r[1..] == SwitchedAll(cs[1..], s);
      r
  }

  /** GenOutCtrl_StartAll on the bank: it leaves every controller ready. */
  function StartedAll(cs: seq<Ctrl>): (r: seq<Ctrl>)
    requires AllReady(cs)
    ensures |r| == |cs| && AllReady(r)
    decreases |cs|
  {
    if cs == [] then []
    else
      StartInv(cs[0]);
      var r := [Started(cs[0]).1] + StartedAll(cs[1..]);
      assert r[1..] == StartedAll(cs[1..]);
      r
  }

  /** GenOutCtrl_TickUpdateAll_ms on the bank: it leaves every controller ready. */
  function TickedAll(cs: seq<Ctrl>, t: u16): (r: seq<Ctrl>)
    requires AllReady(cs)
    ensures |r| == |cs| && AllReady(r)
    decreases |cs|
  {
    if cs == [] then []
    else
      TickReady(cs[0], t);
      var r := [Tick(cs[0], t)] + TickedAll(cs[1..], t);
      assert r[1..] == TickedAll(cs[1..], t);
      r
  }

  /** Controller `i` of the switched bank is controller `i` switched. */
  lemma {:induction false} SwitchedAllAt(cs: seq<Ctrl>, s: nat, i: nat)
    requires AllReady(cs) && i < |cs| && Ready(cs[i])
    ensures SwitchedAll(cs, s)[i] == Switched(cs[i], s)
    decreases i
  {
    if i > 0 {
      SwitchedAllAt(cs[1..], s, i - 1);
    }
  }

  /** Controller `i` of the started bank is controller `i` started. */
  lemma {:induction false} StartedAllAt(cs: seq<Ctrl>, i: nat)
    requires AllReady(cs) && i < |cs| && Ready(cs[i])
    ensures StartedAll(cs)[i] == Started(cs[i]).1
    decreases i
  {
    if i > 0 {
      StartedAllAt(cs[1..], i - 1);
    }
  }

  /** Controller `i` of the advanced bank is controller `i` advanced. */
  lemma {:induction false} TickedAllAt(cs: seq<Ctrl>, t: u16, i: nat)
    requires AllReady(cs) && i < |cs| && Ready(cs[i])
    ensures TickedAll(cs, t)[i] == Tick(cs[i], t)
    decreases i
  {
    if i > 0 {
      TickedAllAt(cs[1..], t, i - 1);
    }
  }

  /** Timing keeps a controller ready: it never changes its current state. */
  lemma TickReady(c: Ctrl, t: u16)
    requires Ready(c)
    ensures Ready(Tick(c, t)) && Tick(c, t).curr == c.curr
  {
    TickInv(c, t);
    TickKeepsCurr(c, t);
  }

  /**
   * SetOutputControllersToNewState: a set-all request runs StateSetAll then
   * StartAll; any other runs StateSet then Start on its controller. Either
   * leaves every controller ready for the next request.
   */
  function Apply(cs: seq<Ctrl>, r: Request): (cs': seq<Ctrl>)
    requires |cs| == NumIds && AllReady(cs) && Addressed(r)
    ensures |cs'| == NumIds && AllReady(cs')
  {
    if r.setAll then StartedAll(SwitchedAll(cs, r.state)) else ServedAt(cs, r.id, r.state)
  }

  /** GenOutCtrl_StateSet followed by GenOutCtrl_Start, on controller `id` of the bank. */
  function ServedAt(cs: seq<Ctrl>, id: nat, s: nat): (r: seq<Ctrl>)
    requires AllReady(cs) && id < |cs|
    ensures |r| == |cs| && AllReady(r)
    decreases id
  {
    if id == 0 then
      var r := [Served(cs[0], s)] + cs[1..];
      assert r[1..] == cs[1..];
      r
    else
      var r := [cs[0]] + ServedAt(cs[1..], id - 1, s);
      assert r[1..] == ServedAt(cs[1..], id - 1, s);
      r
  }

  /** Serving controller `id` replaces it by itself switched and started, and leaves every other controller as it was. */
  lemma {:induction false} ServedAtIs(cs: seq<Ctrl>, id: nat, s: nat)
    requires AllReady(cs) && id < |cs| && Ready(cs[id])
    ensures ServedAt(cs, id, s) == cs[id := Served(cs[id], s)]
    decreases id
  {
    if id > 0 {
      ServedAtIs(cs[1..], id - 1, s);
      assert cs[id := Served(cs[id], s)] == [cs[0]] + cs[1..][id - 1 := Served(cs[id], s)];
    }
  }

  /** A request for one controller leaves every other controller as it was. */
  lemma ApplySingleOnlyTarget(cs: seq<Ctrl>, r: Request, j: nat)
    requires |cs| == NumIds && AllReady(cs) && Addressed(r) && !r.setAll && j < NumIds && j != r.id
    ensures Apply(cs, r)[j] == cs[j]
  {
    AllReadyAt(cs, r.id);
    ServedAtIs(cs, r.id, r.state);
  }

  /** The requests carried out one after another, oldest first. */
  function ApplyAll(cs: seq<Ctrl>, rs: seq<Request>): (cs': seq<Ctrl>)
    requires |cs| == NumIds && AllReady(cs)
    requires forall k :: 0 <= k < |rs| ==> Addressed(rs[k])
    ensures |cs'| == NumIds && AllReady(cs')
    decreases |rs|
  {
    if rs == [] then cs
    else
      ApplyAll(Apply(cs, rs[0]), rs[1..])
  }

  /** The newest request is the last one served: serving one more request after a sequence of them serves the longer sequence. */
  lemma {:induction false} ApplyAllSnoc(cs: seq<Ctrl>, rs: seq<Request>, r: Request)
    requires |cs| == NumIds && AllReady(cs)
    requires forall k :: 0 <= k < |rs| ==> Addressed(rs[k])
    requires Addressed(r)
    ensures ApplyAll(cs, rs + [r]) == Apply(ApplyAll(cs, rs), r)
    decreases |rs|
  {
    if rs == [] {
      assert ([] + [r])[1..] == [];
    } else {
      assert (rs + [r])[1..] == rs[1..] + [r];
      ApplyAllSnoc(Apply(cs, rs[0]), rs[1..], r);
    }
  }

  /** SetOutputControllersToNewState on the module's data. */
  method Serve(m: OutputCtrlModule, r: Request)
    requires m.Valid() && AllReady(m.stateCtrl[..]) && Addressed(r)
    modifies m.stateCtrl
    ensures m.Valid() && m.stateCtrl[..] == Apply(old(m.stateCtrl[..]), r)
  {
    if r.setAll {
      ServeAll(m, r.state);
    } else {
      ServeOne(m, r.id, r.state);
    }
  }

  /** The set-all branch: GenOutCtrl_StateSetAll, then GenOutCtrl_StartAll. */
  method ServeAll(m: OutputCtrlModule, s: nat)
    requires m.Valid() && AllReady(m.stateCtrl[..])
    modifies m.stateCtrl
    ensures m.Valid() && m.stateCtrl[..] == StartedAll(SwitchedAll(old(m.stateCtrl[..]), s))
  {
    SwitchBank(m, s);
    StartBank(m);
  }

  /** GenOutCtrl_StateSetAll on a ready bank. */
  method SwitchBank(m: OutputCtrlModule, s: nat)
    requires m.Valid() && AllReady(m.stateCtrl[..])
    modifies m.stateCtrl
    ensures m.Valid() && AllReady(m.stateCtrl[..])
    ensures m.stateCtrl[..] == SwitchedAll(old(m.stateCtrl[..]), s)
  {
    ghost var cs := m.stateCtrl[..];
    forall i | 0 <= i < NumIds
      ensures Ready(cs[i])
    {
      AllReadyAt(cs, i);
    }
    var _ := m.StateSetAll(s);
    forall i | 0 <= i < NumIds
      ensures m.stateCtrl[i] == SwitchedAll(cs, s)[i]
    {
      SwitchedAllAt(cs, s, i);
    }
    assert m.stateCtrl[..] == SwitchedAll(cs, s);
  }

  /** GenOutCtrl_StartAll on a ready bank. */
  method StartBank(m: OutputCtrlModule)
    requires m.Valid() && AllReady(m.stateCtrl[..])
    modifies m.stateCtrl
    ensures m.Valid() && m.stateCtrl[..] == StartedAll(old(m.stateCtrl[..]))
  {
    ghost var cs := m.stateCtrl[..];
    forall i | 0 <= i < NumIds
      ensures Ready(cs[i])
    {
      AllReadyAt(cs, i);
    }
    var _ := m.StartAll();
    forall i | 0 <= i < NumIds
      ensures m.stateCtrl[i] == StartedAll(cs)[i]
    {
      StartedAllAt(cs, i);
    }
    assert m.stateCtrl[..] == StartedAll(cs);
  }

  /** The single-controller branch: GenOutCtrl_StateSet, then GenOutCtrl_Start, on controller `id`. */
  method ServeOne(m: OutputCtrlModule, id: nat, s: nat)
    requires m.Valid() && AllReady(m.stateCtrl[..]) && id < NumIds
    modifies m.stateCtrl
    ensures m.Valid() && m.stateCtrl[..] == ServedAt(old(m.stateCtrl[..]), id, s)
  {
    ghost var cs := m.stateCtrl[..];
    AllReadyAt(cs, id);
    var _ := m.StateSet(id, s);
    SwitchedStartedReady(cs[id], s);
    var _ := m.Start(id);
    ServedAtIs(cs, id, s);
  }

  // ---------------------------------------------------------------------
  // The request queue and the output-control task.

  class RequestQueue {
    const buf: array<Request>
    var head: nat
    var tail: nat
    var slots: nat

    /** The tail sits `slots` positions past the head, around the ring. */
    ghost predicate Valid()
      reads this, buf
    {
      buf.Length == NumSlots && head < NumSlots && tail < NumSlots && slots <= NumSlots &&
      tail == Pos(head, slots) &&
      forall i :: 0 <= i < NumSlots ==> Addressed(buf[i])
    }

    /** The pending requests, oldest first. */
    ghost function Contents(): (q: seq<Request>)
      requires Valid()
      reads this, buf
      ensures |q| == slots && forall k :: 0 <= k < |q| ==> Addressed(q[k])
    {
      var q := Window(buf[..], head, slots);
      WindowAddressed(buf[..], head, slots);
      q
    }

    /** The zero-initialised buffer: empty, both positions at the first slot. */
    constructor ()
      ensures Valid() && Contents() == [] && head == 0 && tail == 0
    {
      buf := new Request[NumSlots](_ => Request(false, 0, 0));
      head := 0;
      tail := 0;
      slots := 0;
    }

    /**
     * The common part of GenOutCtrlApp_SetStateAll and GenOutCtrlApp_SetState:
     * with a free slot the request is stored at the tail, the slot count goes
     * up and the tail moves on; a full queue is left as it is (its ASSERT is
     * compiled out).
     */
    method Enqueue(r: Request)
      requires Valid() && Addressed(r)
      modifies this, buf
      ensures Valid()
      ensures old(slots) < NumSlots ==>
        Contents() == old(Contents()) + [r] && slots == old(slots) + 1 && tail == Next(old(tail)) &&
        head == old(head) && buf[..] == old(buf[..])[old(tail) := r]
      ensures old(slots) == NumSlots ==>
        Contents() == old(Contents()) && slots == old(slots) && head == old(head) && tail == old(tail) &&
        buf[..] == old(buf[..])
    {
      if slots < NumSlots {
        WindowPush(buf[..], head, slots, r);
        buf[tail] := r;
        slots := slots + 1;
        tail := if tail == NumSlots - 1 then 0 else tail + 1;
      }
    }

    /** GenOutCtrlApp_SetStateAll: a set-all request, with GEN_OUT_CTRL_ID_MAX in its id field. */
    method SetStateAll(s: nat)
      requires Valid()
      modifies this, buf
      ensures Valid()
      ensures old(slots) < NumSlots ==> Contents() == old(Contents()) + [Request(true, NumIds, s)]
      ensures old(slots) == NumSlots ==> Contents() == old(Contents())
    {
      Enqueue(Request(true, NumIds, s));
    }

    /** GenOutCtrlApp_SetState: a request for one controller. */
    method SetState(id: nat, s: nat)
      requires Valid() && id < NumIds
      modifies this, buf
      ensures Valid()
      ensures old(slots) < NumSlots ==> Contents() == old(Contents()) + [Request(false, id, s)]
      ensures old(slots) == NumSlots ==> Contents() == old(Contents())
    {
      Enqueue(Request(false, id, s));
    }

    /**
     * The drain loop of ControlTask: requests are served from the head, oldest
     * first, until none is left.
     */
    method Drain(m: OutputCtrlModule)
      requires Valid() && m.Valid() && AllReady(m.stateCtrl[..])
      modifies this, m.stateCtrl
      ensures Valid() && slots == 0 && Contents() == [] && head == tail && buf[..] == old(buf[..])
      ensures m.Valid() && m.stateCtrl[..] == ApplyAll(old(m.stateCtrl[..]), old(Contents()))
    {
      ghost var start := m.stateCtrl[..];
      ghost var pending := Contents();
      while slots > 0
        invariant Valid() && buf[..] == old(buf[..])
        invariant m.Valid() && AllReady(m.stateCtrl[..])
        invariant ApplyAll(m.stateCtrl[..], Contents()) == ApplyAll(start, pending)
        decreases slots
      {
        ServeHead(m);
      }
      Emptied();
    }

    /** A queue with no pending request has its tail at its head. */
    lemma Emptied()
      requires Valid() && slots == 0
      ensures Contents() == [] && head == tail
    {
      assert Pos(head, 0) == head;
    }

    /** One turn of the drain loop: the request at the head is served and its slot freed. */
    method ServeHead(m: OutputCtrlModule)
      requires Valid() && slots > 0 && m.Valid() && AllReady(m.stateCtrl[..])
      modifies this, m.stateCtrl
      ensures Valid() && buf[..] == old(buf[..]) && slots == old(slots) - 1
      ensures Contents() == old(Contents())[1..]
      ensures m.Valid() && AllReady(m.stateCtrl[..])
      ensures m.stateCtrl[..] == Apply(old(m.stateCtrl[..]), old(Contents())[0])
    {
      var r := buf[head];
      Serve(m, r);
      slots := slots - 1;
      head := if head == NumSlots - 1 then 0 else head + 1;
    }

    /**
     * One pass of ControlTask's loop once it is awake: the pending requests
     * are served, then every controller is advanced by the time elapsed since
     * the previous pass.
     */
    method ControlCycle(m: OutputCtrlModule, elapsed: u16)
      requires Valid() && m.Valid() && AllReady(m.stateCtrl[..])
      modifies this, m.stateCtrl
      ensures Valid() && Contents() == []
      ensures m.Valid() && AllReady(m.stateCtrl[..])
      ensures m.stateCtrl[..] == TickedAll(ApplyAll(old(m.stateCtrl[..]), old(Contents())), elapsed)
    {
      Drain(m);
      ghost var served := m.stateCtrl[..];
      forall i | 0 <= i < NumIds
        ensures Ready(served[i])
      {
        AllReadyAt(served, i);
      }
      var _ := m.TickUpdateAll(elapsed);
      forall i | 0 <= i < NumIds
        ensures m.stateCtrl[i] == TickedAll(served, elapsed)[i]
      {
        TickedAllAt(served, elapsed, i);
      }
      assert m.stateCtrl[..] == TickedAll(served, elapsed);
    }
  }

  /** Every request of a window of a buffer holding only addressed requests is addressed. */
  lemma {:induction false} WindowAddressed(buf: seq<Request>, head: nat, n: nat)
    requires |buf| == NumSlots && head < NumSlots && n <= NumSlots
    requires forall i :: 0 <= i < NumSlots ==> Addressed(buf[i])
    ensures forall k :: 0 <= k < n ==> Addressed(Window(buf, head, n)[k])
    decreases n
  {
    if n > 0 {
      WindowAddressed(buf, Next(head), n - 1);
    }
  }

  /** genOutCtrlAppNeedSendEvent: the output-control task needs waking iff no controller's output is being timed. */
  method NeedSendEvent(m: OutputCtrlModule) returns (r: bool)
    requires m.Valid() && forall i :: 0 <= i < NumIds ==> (Running(m.stateCtrl[i]) ==> m.stateCtrl[i].curr.Some?)
    ensures r <==> forall i :: 0 <= i < NumIds ==> !OutputCtrlrIsActive(m.stateCtrl[i])
  {
    var active := m.AtLeastOneOutputCtrlrIsActive();
    r := !active;
  }
}
