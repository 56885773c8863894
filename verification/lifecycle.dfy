/** Binding and unbinding the driver to one I2C client: `it7260_ts_probe`
    with its goto unwind chain, and `it7260_ts_remove`. Each kernel resource
    the driver takes is an element of a ledger; every acquisition and
    release is also appended to a log, so that the order of the unwind can
    be stated. Allocation and registration results come from outside and
    are parameters. */
module Lifecycle {
  import opened IrqBracket

  /** `ENOMEM`, returned negated when an allocation fails. */
  const ENOMEM: int := 12

  /** What the driver can hold for one client. */
  datatype Resource =
    | PrivData        // the `kzalloc`ed `it7260_ts_priv`
    | InputDevice     // the `input_allocate_device` result
    | InputRegistered // the registration made by `input_register_device`
    | IrqLine         // the handler installed by `request_irq`

  /** The order in which a successful probe acquires its resources. */
  const ProbeOrder: seq<Resource> := [PrivData, InputDevice, InputRegistered, IrqLine]

  datatype Action = Acquire(r: Resource) | Release(r: Resource)

  /** The resources held, whether the client's drvdata points at the
      private data, and every acquisition and release so far. */
  datatype Ledger = Ledger(held: set<Resource>, drvdata: bool, log: seq<Action>)

  /** A client no driver is bound to. */
  const Unbound := Ledger({}, false, [])

  /** A client after a successful probe. */
  predicate Bound(l: Ledger)
  {
    l.drvdata && l.held == {PrivData, InputDevice, InputRegistered, IrqLine}
  }

  function Take(l: Ledger, r: Resource): (l': Ledger)
    requires r !in l.held
    ensures l'.held == l.held + {r} && l'.drvdata == l.drvdata
  {
    Ledger(l.held + {r}, l.drvdata, l.log + [Acquire(r)])
  }

  /** Releasing a resource that is not held would be a double free or a
      release of something never taken: the precondition rules it out. */
  function Drop(l: Ledger, r: Resource): (l': Ledger)
    requires r in l.held
    ensures l'.held == l.held - {r} && l'.drvdata == l.drvdata
  {
    Ledger(l.held - {r}, l.drvdata, l.log + [Release(r)])
  }

  /** `dev_set_drvdata`: points the client's drvdata at the private data,
      or clears it. */
  function SetDrvdata(l: Ledger, pointsToPriv: bool): (l': Ledger)
    ensures l'.drvdata == pointsToPriv && l'.held == l.held && l'.log == l.log
  {
    Ledger(l.held, pointsToPriv, l.log)
  }

  /** `input_unregister_device`: undoes the registration and drops the
      last reference, which frees the device. */
  function InputUnregister(l: Ledger): (l': Ledger)
    requires InputRegistered in l.held && InputDevice in l.held
    ensures l'.held == l.held - {InputRegistered, InputDevice}
  {
    Drop(Drop(l, InputRegistered), InputDevice)
  }

  /** `input_free_device(input)`: nothing when the pointer is NULL;
      otherwise frees a device that must not be registered. */
  function InputFree(l: Ledger, inputNonNull: bool): (l': Ledger)
    requires inputNonNull ==> InputDevice in l.held && InputRegistered !in l.held
    ensures l'.held == if inputNonNull then l.held - {InputDevice} else l.held
  {
    if inputNonNull then Drop(l, InputDevice) else l
  }

  /** `kfree(priv)`. */
  function KFree(l: Ledger): (l': Ledger)
    requires PrivData in l.held
    ensures l'.held == l.held - {PrivData}
  {
    Drop(l, PrivData)
  }

  /** What the environment answers to each probe step: whether the two
      allocations succeed, and the codes `input_register_device` and
      `request_irq` return (0 is success). */
  datatype ProbeEnv = ProbeEnv(privAllocOk: bool, inputAllocOk: bool,
                               registerError: int, requestIrqError: int)

  /** The value `it7260_ts_probe` returns, and the ledger afterwards. */
  datatype ProbeResult = ProbeResult(ret: int, ledger: Ledger)

  /** Label `err0`: clear the drvdata and return the error. */
  function Err0(error: int, l: Ledger): (r: ProbeResult)
    ensures r.ret == error && r.ledger.held == l.held && !r.ledger.drvdata
  {
    ProbeResult(error, SetDrvdata(l, false))
  }

  /** Label `err1`: free the input device (a no-op when the pointer is
      NULL), free the private data, then fall through to `err0`. */
  function Err1(error: int, l: Ledger, inputNonNull: bool): (r: ProbeResult)
    requires PrivData in l.held
    requires inputNonNull ==> InputDevice in l.held && InputRegistered !in l.held
    ensures r.ret == error && !r.ledger.drvdata
    ensures r.ledger.held == l.held - {PrivData} - (if inputNonNull then {InputDevice} else {})
  {
    Err0(error, KFree(InputFree(l, inputNonNull)))
  }

  /** Label `err2`: unregister the input device, set the local pointer to
      NULL so that `err1` does not free it a second time, fall through. */
  function Err2(error: int, l: Ledger): (r: ProbeResult)
    requires PrivData in l.held && InputDevice in l.held && InputRegistered in l.held
    ensures r.ret == error && !r.ledger.drvdata
    ensures r.ledger.held == l.held - {PrivData, InputDevice, InputRegistered}
  {
    Err1(error, InputUnregister(l), false)
  }

  /** `it7260_ts_probe`, starting from an unbound client. */
  function Probe(env: ProbeEnv): (r: ProbeResult)
    ensures r.ret == 0 <==> env.privAllocOk && env.inputAllocOk
                            && env.registerError == 0 && env.requestIrqError == 0
    ensures r.ret == 0 ==> Bound(r.ledger) && r.ledger.log == ProbeLog(ProbeOrder)
    ensures r.ret != 0 ==> r.ledger.held == {} && !r.ledger.drvdata
    ensures !env.privAllocOk ==> r.ret == -ENOMEM
    ensures env.privAllocOk && !env.inputAllocOk ==> r.ret == -ENOMEM
    ensures env.privAllocOk && env.inputAllocOk && env.registerError != 0 ==>
              r.ret == env.registerError
    ensures env.privAllocOk && env.inputAllocOk && env.registerError == 0 ==>
              r.ret == env.requestIrqError
  {
    var l0 := Unbound;
    if !env.privAllocOk then Err0(-ENOMEM, l0)
    else
      var l1 := SetDrvdata(Take(l0, PrivData), true);
      if !env.inputAllocOk then Err1(-ENOMEM, l1, false)
      else
        var l2 := Take(l1, InputDevice);
        if env.registerError != 0 then Err1(env.registerError, l2, true)
        else
          var l3 := Take(l2, InputRegistered);
          if env.requestIrqError != 0 then Err2(env.requestIrqError, l3)
          else
            assert l3.log == ProbeLog(ProbeOrder[..3]);
            ProbeResult(0, Take(l3, IrqLine))
  }

  /** The log of acquiring `rs` in order. */
  function ProbeLog(rs: seq<Resource>): (log: seq<Action>)
    ensures |log| == |rs|
    ensures forall i :: 0 <= i < |rs| ==> log[i] == Acquire(rs[i])
  {
    if |rs| == 0 then [] else ProbeLog(rs[..|rs| - 1]) + [Acquire(rs[|rs| - 1])]
  }

  /** `s` back to front. */
  function Reverse<T>(s: seq<T>): (r: seq<T>)
    ensures |r| == |s|
    ensures forall i :: 0 <= i < |s| ==> r[i] == s[|s| - 1 - i]
  {
    if |s| == 0 then [] else Reverse(s[1..]) + [s[0]]
  }

  /** How many resources of the probe order a probe acquires before its
      first failing step; 4 when no step fails. */
  function AcquiredBeforeFailure(env: ProbeEnv): (k: nat)
    ensures k <= |ProbeOrder|
  {
    if !env.privAllocOk then 0
    else if !env.inputAllocOk then 1
    else if env.registerError != 0 then 2
    else if env.requestIrqError != 0 then 3
    else 4
  }

  /** A failed probe unwinds in reverse: it acquires the resources of the
      probe order up to the failing step, then releases exactly those, the
      last taken first, and acquires nothing after the first release. */
  lemma ProbeFailureUnwindsInReverse(env: ProbeEnv)
    requires Probe(env).ret != 0
    ensures AcquiredBeforeFailure(env) < |ProbeOrder|
    ensures var k := AcquiredBeforeFailure(env);
      Probe(env).ledger.log
        == ProbeLog(ProbeOrder[..k]) + ReleaseLog(Reverse(ProbeOrder[..k]))
  {
    var l := Probe(env).ledger.log;
    var k := AcquiredBeforeFailure(env);
    var p, d, g := PrivData, InputDevice, InputRegistered;
    if k == 0 {
      assert l == [];
      assert ProbeOrder[..k] == [];
    } else if k == 1 {
      assert l == [Acquire(p), Release(p)];
      assert ProbeOrder[..k] == [p];
      assert Reverse(ProbeOrder[..k]) == [p];
    } else if k == 2 {
      assert l == [Acquire(p), Acquire(d), Release(d), Release(p)];
      assert ProbeOrder[..k] == [p, d];
      assert Reverse(ProbeOrder[..k]) == [d, p];
    } else {
      assert l == [Acquire(p), Acquire(d), Acquire(g), Release(g), Release(d), Release(p)];
      assert ProbeOrder[..k] == [p, d, g];
      assert Reverse(ProbeOrder[..k]) == [g, d, p];
    }
  }

  /** The log of releasing `rs` in order. */
  function ReleaseLog(rs: seq<Resource>): (log: seq<Action>)
    ensures |log| == |rs|
    ensures forall i :: 0 <= i < |rs| ==> log[i] == Release(rs[i])
  {
    if |rs| == 0 then [] else [Release(rs[0])] + ReleaseLog(rs[1..])
  }

  /** The device's state as the interrupt line and the poll task see it,
      together with the resource ledger. */
  datatype Device = Device(ledger: Ledger, irq: IrqState)

  /** The poll task dereferences the private data, so it may be queued only
      while the private data is still allocated. */
  predicate PollSafe(d: Device)
  {
    d.irq.workPending ==> PrivData in d.ledger.held
  }

  /** `it7260_ts_remove` as written: `free_irq`, `input_unregister_device`,
      `kfree(priv)`, clear drvdata, return 0. It does not touch the delayed
      work. The kernel calls it only for a client whose probe succeeded. */
  function Remove(d: Device): (r: (int, Device))
    requires Bound(d.ledger)
    ensures r.0 == 0
    ensures r.1.ledger.held == {} && !r.1.ledger.drvdata
    ensures r.1.irq == d.irq
  {
    var l := KFree(InputUnregister(Drop(d.ledger, IrqLine)));
    (0, Device(SetDrvdata(l, false), d.irq))
  }

  /** Remove releases in the reverse of the probe order. */
  lemma RemoveReleasesInReverse(d: Device)
    requires Bound(d.ledger)
    ensures Remove(d).1.ledger.log == d.ledger.log + ReleaseLog(Reverse(ProbeOrder))
  {
    assert Reverse(ProbeOrder) == [IrqLine, InputRegistered, InputDevice, PrivData];
  }

  /** Remove undoes a successful probe: afterwards the client holds
      nothing, drvdata is NULL, and the log shows each resource released
      once, in the reverse of the order it was acquired. */
  lemma ProbeThenRemove(env: ProbeEnv, irq: IrqState)
    requires Probe(env).ret == 0
    ensures var r := Remove(Device(Probe(env).ledger, irq)).1.ledger;
      r.held == Unbound.held && r.drvdata == Unbound.drvdata
      && r.log == ProbeLog(ProbeOrder) + ReleaseLog(Reverse(ProbeOrder))
  {
    RemoveReleasesInReverse(Device(Probe(env).ledger, irq));
  }

  /** The as-written remove breaks `PollSafe`: an interrupt taken just
      before unbind leaves the poll task queued after the private data it
      will read has been freed (and it will then enable a line that has
      already been released). */
  lemma RemoveLeavesPollQueued(env: ProbeEnv)
    requires env == ProbeEnv(true, true, 0, 0)
    ensures Probe(env).ret == 0
    ensures !PollSafe(Remove(Device(Probe(env).ledger, Isr(Idle).0)).1)
  {
  }

  /** `cancel_delayed_work_sync`: a queued poll task is removed from the
      queue (and one already running is waited for). */
  function CancelDelayedWorkSync(s: IrqState): (t: IrqState)
    ensures !t.workPending && t.depth == s.depth
  {
    IrqState(s.depth, false)
  }

  /** Remove with the poll task cancelled once the handler is gone: the
      same releases in the same order, and nothing left queued. */
  function RemoveSync(d: Device): (r: (int, Device))
    requires Bound(d.ledger)
    ensures r.0 == 0
    ensures r.1.ledger.held == {} && !r.1.ledger.drvdata
    ensures r.1.ledger.log == d.ledger.log + ReleaseLog(Reverse(ProbeOrder))
    ensures PollSafe(r.1)
  {
    var afterIrq := Drop(d.ledger, IrqLine);
    var irq := CancelDelayedWorkSync(d.irq);
    var l := KFree(InputUnregister(afterIrq));
    assert Reverse(ProbeOrder) == [IrqLine, InputRegistered, InputDevice, PrivData];
    (0, Device(SetDrvdata(l, false), irq))
  }
}
