/**
 * The CPU record: storage, attached devices and the interrupt queue, with
 * the operations that route, trigger and return from interrupts, register
 * devices and reset the machine.
 */
module Processor {
  import opened Words
  import opened Instructions
  import opened Operands

  /** What HWQ reports about a device. The device implementations are not
      part of this model; only these three values are. */
  datatype Device = Device(id: UInt32, revision: Word, manufacturer: UInt32)

  /** The largest number of devices `RegisterDevice` admits (1<<16 - 1). */
  const MaxDevices: nat := 0xffff

  datatype Cpu = Cpu(
    store: Storage,
    devices: seq<Device>,
    queue: seq<Word>,      // pending interrupt messages, oldest first
    queueing: bool)        // interrupt queueing enabled

  /** The bounds the emulator's channel capacity and registration guard keep. */
  predicate Valid(c: Cpu) {
    |c.queue| <= MaxIntQueue && |c.devices| <= MaxDevices
  }

  /** Raised by the emulator as a Go panic when the queue is full. */
  datatype Overload = OverloadError

  datatype Result<T> = Ok(value: T) | Err(error: Overload)

  function CountDevices(c: Cpu): (n: nat)
    ensures Valid(c) ==> n <= MaxDevices
  {
    |c.devices|
  }

  /** Appends a device unless 0xffff are already attached, in which case
      the request is silently ignored. */
  function RegisterDevice(c: Cpu, d: Device): (r: Cpu)
    ensures CountDevices(r) == if CountDevices(c) < MaxDevices then CountDevices(c) + 1 else CountDevices(c)
    ensures r.devices[..|c.devices|] == c.devices
    ensures CountDevices(c) < MaxDevices ==> r.devices[|c.devices|] == d
    ensures r.store == c.store && r.queue == c.queue && r.queueing == c.queueing
    ensures Valid(c) ==> Valid(r)
  {
    if |c.devices| < MaxDevices then c.(devices := c.devices + [d]) else c
  }

  function ClearDevices(c: Cpu): (r: Cpu)
    ensures CountDevices(r) == 0
    ensures r.store == c.store && r.queue == c.queue && r.queueing == c.queueing
  {
    c.(devices := [])
  }

  /** Clears storage, empties the queue and disables queueing; devices stay. */
  function Reset(c: Cpu): (r: Cpu)
    ensures Valid(c) ==> Valid(r)
    ensures r.devices == c.devices
    ensures r.queue == [] && !r.queueing
    ensures forall reg :: Get(r.store, reg) == 0
    ensures r.store.ia == 0
    ensures forall addr: Word :: r.store.mem[addr] == 0
  {
    Cpu(Cleared(), c.devices, [], false)
  }

  /** Enters the handler at IA with message `msg`: pushes PC, then A,
      jumps to IA, puts the message in A and turns queueing on. */
  function TriggerInterrupt(c: Cpu, msg: Word): (r: Cpu)
    ensures r.queueing
    ensures r.devices == c.devices && r.queue == c.queue
    ensures r.store.pc == c.store.ia && r.store.a == msg
    ensures r.store.sp == Sub16(c.store.sp, 2)
    ensures r.store.mem[c.store.sp] == c.store.pc
    ensures r.store.mem[Sub16(c.store.sp, 1)] == c.store.a
    ensures forall addr: Word :: addr != c.store.sp && addr != Sub16(c.store.sp, 1) ==>
              r.store.mem[addr] == c.store.mem[addr]
    ensures forall reg :: reg !in {A, SP, PC} ==> Get(r.store, reg) == Get(c.store, reg)
    ensures r.store.ia == c.store.ia
  {
    var s := c.store;
    var s := s.(mem := s.mem[s.sp := s.pc], sp := Sub16(s.sp, 1));   // PUSH PC
    var s := s.(mem := s.mem[s.sp := s.a], sp := Sub16(s.sp, 1));    // PUSH A
    var s := s.(pc := s.ia, a := msg);
    c.(store := s, queueing := true)
  }

  /** RFI: turns queueing off, pops A, then pops PC. */
  function ReturnFromInterrupt(c: Cpu): (r: Cpu)
    ensures !r.queueing
    ensures r.devices == c.devices && r.queue == c.queue
    ensures r.store.sp == Add16(c.store.sp, 2)
    ensures r.store.a == c.store.mem[Add16(c.store.sp, 1)]
    ensures r.store.pc == c.store.mem[Add16(c.store.sp, 2)]
    ensures r.store.mem == c.store.mem
    ensures forall reg :: reg !in {A, SP, PC} ==> Get(r.store, reg) == Get(c.store, reg)
  {
    var s := c.store;
    var s := s.(sp := Add16(s.sp, 1));
    var s := s.(a := s.mem[s.sp]);
    var s := s.(sp := Add16(s.sp, 1));
    var s := s.(pc := s.mem[s.sp]);
    c.(store := s, queueing := false)
  }

  /** Routes an interrupt from software (INT) or hardware: with queueing on
      it joins the queue, failing if the queue is full; otherwise it is
      triggered if IA is set and dropped if IA is zero. */
  function Interrupt(c: Cpu, msg: Word): (r: Result<Cpu>)
    ensures r.Err? <==> c.queueing && |c.queue| >= MaxIntQueue
    ensures r.Ok? && c.queueing ==> r.value == c.(queue := c.queue + [msg])
    ensures !c.queueing && c.store.ia == 0 ==> r == Ok(c)
    ensures !c.queueing && c.store.ia != 0 ==> r == Ok(TriggerInterrupt(c, msg))
    ensures r.Ok? ==> r.value.devices == c.devices
    ensures r.Ok? && Valid(c) ==> Valid(r.value)
  {
    if c.queueing then
      if |c.queue| >= MaxIntQueue then Err(OverloadError)
      else Ok(c.(queue := c.queue + [msg]))
    else if c.store.ia != 0 then Ok(TriggerInterrupt(c, msg))
    else Ok(c)
  }

  /** At the start of a step, with queueing off, the oldest queued
      interrupt (if any) is taken off the queue and triggered. */
  function ServiceQueue(c: Cpu): (r: Cpu)
    ensures c.queueing || c.queue == [] ==> r == c
    ensures !c.queueing && c.queue != [] ==>
              r == TriggerInterrupt(c.(queue := c.queue[1..]), c.queue[0])
    ensures r.devices == c.devices
    ensures r.queue == c.queue || r.queue == c.queue[1..]
  {
    if !c.queueing && |c.queue| > 0 then
      TriggerInterrupt(c.(queue := c.queue[1..]), c.queue[0])
    else
      c
  }

  /** RFI right after an interrupt was triggered restores PC, A and SP and
      turns queueing back off. */
  lemma {:induction false} ReturnUndoesTrigger(c: Cpu, msg: Word)
    ensures ReturnFromInterrupt(TriggerInterrupt(c, msg)).store.(mem := c.store.mem) == c.store
    ensures !ReturnFromInterrupt(TriggerInterrupt(c, msg)).queueing
    ensures ReturnFromInterrupt(TriggerInterrupt(c, msg)).queue == c.queue
    ensures ReturnFromInterrupt(TriggerInterrupt(c, msg)).devices == c.devices
  {
    var sp := c.store.sp;
    var sp1 := Sub16(sp, 1);
    var t := TriggerInterrupt(c, msg);
    assert sp1 != sp;
    assert t.store.mem[sp1] == c.store.a;
    assert t.store.mem[sp] == c.store.pc;
    assert Add16(t.store.sp, 1) == sp1;
    assert Add16(t.store.sp, 2) == sp;
    var r := ReturnFromInterrupt(t);
    assert r.store.a == c.store.a && r.store.pc == c.store.pc && r.store.sp == sp;
  }

  /** Raises the interrupts `msgs` one after another, stopping at the first
      failure. */
  function InterruptAll(c: Cpu, msgs: seq<Word>): Result<Cpu>
    decreases |msgs|
  {
    if msgs == [] then Ok(c)
    else
      match Interrupt(c, msgs[0])
      case Err(e) => Err(e)
      case Ok(c1) => InterruptAll(c1, msgs[1..])
  }

  /** With queueing on, raising a run of interrupts appends them to the
      queue in order, and fails exactly when some of them do not fit. */
  lemma {:induction false} QueueingAppends(c: Cpu, msgs: seq<Word>)
    requires c.queueing
    ensures InterruptAll(c, msgs).Ok? <==> msgs == [] || |c.queue| + |msgs| <= MaxIntQueue
    ensures InterruptAll(c, msgs).Ok? ==> InterruptAll(c, msgs).value == c.(queue := c.queue + msgs)
    decreases |msgs|
  {
    if msgs != [] {
      if |c.queue| < MaxIntQueue {
        var c1 := c.(queue := c.queue + [msgs[0]]);
        assert Interrupt(c, msgs[0]) == Ok(c1);
        assert InterruptAll(c, msgs) == InterruptAll(c1, msgs[1..]);
        QueueingAppends(c1, msgs[1..]);
        assert c.queue + msgs == c1.queue + msgs[1..];
      } else {
        assert Interrupt(c, msgs[0]).Err?;
        assert InterruptAll(c, msgs).Err?;
      }
    }
  }

  /** Queued interrupts come out in the order they went in: once queueing
      is off, the next step services the oldest pending message and keeps
      the rest in order. */
  lemma QueueIsFifo(c: Cpu, msgs: seq<Word>)
    requires c.queueing && |c.queue| + |msgs| <= MaxIntQueue && c.queue + msgs != []
    ensures InterruptAll(c, msgs).Ok?
    ensures ServiceQueue(InterruptAll(c, msgs).value.(queueing := false)).store.a == (c.queue + msgs)[0]
    ensures ServiceQueue(InterruptAll(c, msgs).value.(queueing := false)).queue == (c.queue + msgs)[1..]
  {
    QueueingAppends(c, msgs);
  }
}
