/**
 Signals of one user process (signal.c) and the trap path that delivers them (trap.c). What
 the rest of the kernel does during a trap is an input: the value a system call returns, the
 signals other processes send while this one is off the CPU, and whether it is ended.
 */
module Signals {
  import opened Bits
  import opened SignalBits

  const MAX_SIGNALS: nat := 32
  const SIGTRAMP: nat := 0x033f_f000
  const WORD_LIMIT: nat := 0x1_0000_0000_0000_0000
  const MINUS_ONE: nat := WORD_LIMIT - 1

  const SYS_EXEC: nat := 3
  const SYS_EXIT: nat := 6
  const SYS_SIGNAL: nat := 10
  const SYS_SIGRETURN: nat := 11
  const SYS_KILL: nat := 12

  // The trap frame; others are the registers no code here names.
  datatype Frame = Frame(ra: nat, sp: nat, a0: nat, a1: nat, a7: nat, sepc: nat, sstatus: nat, others: seq<nat>)

  const NO_FRAME: Frame := Frame(0, 0, 0, 0, 0, 0, 0, [])

  // The signal fields of task_struct with the frame of the trap at hand. A process that has
  // ended never leaves its last trap.
  datatype State = State(handlers: seq<nat>, pending: nat, handling: bool, current: int, saved: Frame,
                         tf: Frame, alive: bool)

  predicate Valid(s: State)
  {
    |s.handlers| == MAX_SIGNALS && s.pending < 0x1_0000_0000
  }

  predicate FromUser(f: Frame)
  {
    !Bit(f.sstatus, 8)
  }

  // The C conversion of a 64-bit register to int.
  function AsInt(x: nat): int
  {
    var low := x % 0x1_0000_0000;
    if low < 0x8000_0000 then low else low - 0x1_0000_0000
  }

  predicate ValidSignal(signum: int)
  {
    0 < signum < MAX_SIGNALS
  }

  // The signals that wait, in the order find_pending_signal finds them.
  function Waiting(pending: nat): seq<nat>
  {
    BitList(pending, 1, MAX_SIGNALS)
  }

  // ---------- steps on values ----------

  // sys_signal
  function Register(s: State, signum: int, handler: nat): State
    requires Valid(s)
  {
    if ValidSignal(signum) then s.(handlers := s.handlers[signum := handler]) else s
  }

  // sys_kill for this process: without a handler it ends, with one the signal waits.
  function Post(s: State, signum: int): State
    requires Valid(s)
  {
    if !ValidSignal(signum) || !s.alive then s
    else if s.handlers[signum] == 0 then s.(alive := false)
    else s.(pending := Or(s.pending, Pow2(signum)))
  }

  function Unset(pending: nat, signum: nat): (r: nat)
    requires signum < MAX_SIGNALS
    ensures r <= pending
  {
    Pow2Mono(signum, 64);
    AndBound(pending, Pow2(64) - 1 - Pow2(signum));
    And(pending, Pow2(64) - 1 - Pow2(signum))
  }

  // signal_try_deliver: the lowest waiting signal, unless a handler runs already.
  function Deliver(s: State, stack: nat): State
    requires Valid(s)
  {
    if s.handling || Waiting(s.pending) == [] then s
    else
      var signum := Waiting(s.pending)[0];
      LowestIsValid(s.pending);
      var handler := s.handlers[signum];
      if handler == 0 then s.(alive := false)
      else s.(pending := Unset(s.pending, signum), handling := true, current := signum, saved := s.tf,
              tf := s.tf.(sepc := handler, ra := SIGTRAMP, sp := stack, a0 := signum))
  }

  lemma LowestIsValid(pending: nat)
    requires Waiting(pending) != []
    ensures ValidSignal(Waiting(pending)[0])
  {
    BitListMembers(pending, 1, MAX_SIGNALS);
    assert Waiting(pending)[0] in Waiting(pending);
  }

  // sys_sigreturn
  function Return(s: State): State
  {
    if s.handling then s.(tf := s.saved, handling := false, current := 0, saved := NO_FRAME) else s
  }

  // signal_task_init
  function Cleared(s: State): State
  {
    s.(handlers := seq(MAX_SIGNALS, _ => 0), pending := 0, handling := false, current := 0, saved := NO_FRAME)
  }

  // signal_fork: the child keeps the handlers and nothing else.
  function Forked(parent: State, child: State): State
  {
    child.(handlers := parent.handlers, pending := 0, handling := false, current := 0, saved := NO_FRAME)
  }

  // ---------- one trap ----------

  // What exec loads: nothing when it fails, else the frame the new program starts with.
  datatype Image = NoImage | Image(start: Frame)

  // What happens outside this module during one trap: the value of a system call it does not
  // model, whether a kill is meant for this very process, what exec loads, the signals others
  // send, and whether another process ends this one.
  datatype Outside = Outside(ret: nat, self: bool, image: Image, posted: seq<int>, ended: bool)

  // The process runs in user mode and traps with this frame.
  datatype Step = Step(frame: Frame, ecall: bool, env: Outside)

  function PostAll(s: State, signums: seq<int>): (t: State)
    requires Valid(s)
    ensures Valid(t)
    ensures t == s.(pending := t.pending, alive := t.alive)
    decreases |signums|
  {
    if signums == [] then s else
    PostValid(s, signums[0]);
    PostAll(Post(s, signums[0]), signums[1..])
  }

  // syscall_handler: the state and the value for a0.
  function Syscall(s: State, env: Outside): (State, nat)
    requires Valid(s)
  {
    var no, arg := s.tf.a7, AsInt(s.tf.a0);
    if no == SYS_SIGNAL then (Register(s, arg, s.tf.a1), if ValidSignal(arg) then s.handlers[arg] else MINUS_ONE)
    else if no == SYS_SIGRETURN then (Return(s), if s.handling then 0 else MINUS_ONE)
    else if no == SYS_KILL && !ValidSignal(AsInt(s.tf.a1)) then (s, MINUS_ONE)
    else if no == SYS_KILL && env.self then (Post(s, AsInt(s.tf.a1)), 0)
    else if no == SYS_EXIT then (s.(alive := false), 0)
    else if no == SYS_EXEC && env.image.Image? then (Cleared(s).(tf := env.image.start), 0)
    else (s, env.ret)
  }

  // The body of an environment call: past the ecall instruction, the call, and its value in
  // a0 unless the call is sigreturn.
  function Call(s: State, env: Outside): State
    requires Valid(s)
  {
    var no := s.tf.a7;
    var (t, ret) := Syscall(s.(tf := s.tf.(sepc := (s.tf.sepc + 4) % WORD_LIMIT)), env);
    if no == SYS_SIGRETURN then t else t.(tf := t.tf.(a0 := ret))
  }

  // do_trap from user mode.
  function Trap(s: State, step: Step, stack: nat): State
    requires Valid(s)
  {
    var t := PostAll(s.(tf := step.frame), step.env.posted);
    if !t.alive || step.env.ended then t.(alive := false)
    else
      CallValid(t, step.env);
      var u := if step.ecall then Call(t, step.env) else t;
      if u.alive && FromUser(u.tf) then Deliver(u, stack) else u
  }

  function Run(s: State, steps: seq<Step>, stack: nat): State
    requires Valid(s)
    decreases |steps|
  {
    if steps == [] || !s.alive then s else
    TrapValid(s, steps[0], stack);
    Run(Trap(s, steps[0], stack), steps[1..], stack)
  }

  // ---------- what the steps keep ----------

  lemma PostValid(s: State, signum: int)
    requires Valid(s)
    ensures Valid(Post(s, signum))
  {
    if ValidSignal(signum) {
      WordPow();
      Pow2Mono(signum + 1, 32);
      OrBound(s.pending, Pow2(signum), 32);
    }
  }

  lemma WordPow()
    ensures Pow2(32) == 0x1_0000_0000 && Pow2(64) == WORD_LIMIT
  {
    assert Pow2(8) == 0x100;
    assert Pow2(16) == 0x1_0000;
    assert Pow2(24) == 0x100_0000;
    assert Pow2(32) == 0x1_0000_0000;
    Pow2Twice(32);
  }

  lemma {:induction false} Pow2Twice(k: nat)
    ensures Pow2(k + k) == Pow2(k) * Pow2(k)
  {
    if k > 0 {
      Pow2Twice(k - 1);
      var h := Pow2(k - 1);
      assert Pow2(k + k) == 4 * (h * h);
    }
  }

  lemma DeliverValid(s: State, stack: nat)
    requires Valid(s)
    ensures Valid(Deliver(s, stack))
  {
    if Waiting(s.pending) != [] {
      LowestIsValid(s.pending);
    }
  }

  lemma CallValid(s: State, env: Outside)
    requires Valid(s)
    ensures Valid(Call(s, env))
  {
    PostValid(s, AsInt(s.tf.a1));
  }

  lemma TrapValid(s: State, step: Step, stack: nat)
    requires Valid(s)
    ensures Valid(Trap(s, step, stack))
  {
    var t := PostAll(s.(tf := step.frame), step.env.posted);
    CallValid(t, step.env);
    DeliverValid(if step.ecall then Call(t, step.env) else t, stack);
  }

  // ---------- what a signal sent does ----------

  // A signal with a handler waits afterwards, beside those that waited before, and the
  // process lives on; one without ends it; numbers that are no signals do nothing.
  lemma PostWaits(s: State, signum: int)
    requires Valid(s) && s.alive
    ensures var t := Post(s, signum);
            && t == s.(pending := t.pending, alive := t.alive)
            && (!(0 < signum < 32) ==> t == s)
            && (0 < signum < 32 && s.handlers[signum] == 0 ==> !t.alive && t.pending == s.pending)
            && (0 < signum < 32 && s.handlers[signum] != 0 ==>
                  t.alive && forall j: nat :: j in Waiting(t.pending) <==> j in Waiting(s.pending) || j == signum)
  {
    if 0 < signum < MAX_SIGNALS && s.handlers[signum] != 0 {
      BitListMembers(s.pending, 1, MAX_SIGNALS);
      BitListMembers(Post(s, signum).pending, 1, MAX_SIGNALS);
      forall j: nat
        ensures Bit(Post(s, signum).pending, j) <==> Bit(s.pending, j) || j == signum
      {
        OrSets(s.pending, signum, j);
      }
    }
  }

  // Of the signals sent while the process is off the CPU, those with handlers wait, and the
  // process lives on exactly if it lived and all had one.
  lemma {:induction false} AllPosted(s: State, signums: seq<int>)
    requires Valid(s)
    ensures var t := PostAll(s, signums);
            && (t.alive <==> s.alive && forall i :: 0 <= i < |signums| && 0 < signums[i] < 32 ==> s.handlers[signums[i]] != 0)
            && (t.alive ==> forall j: nat :: j in Waiting(t.pending) <==> j in Waiting(s.pending) || (0 < j < 32 && j in signums))
    decreases |signums|
  {
    if signums != [] {
      var t := Post(s, signums[0]);
      PostValid(s, signums[0]);
      AllPosted(t, signums[1..]);
      assert signums == [signums[0]] + signums[1..];
      if s.alive {
        PostWaits(s, signums[0]);
        PostEach(s, t, signums);
        if t.alive {
          forall j: nat
            ensures j in Waiting(t.pending) <==> j in Waiting(s.pending) || (0 < j < 32 && j == signums[0])
          {
            WaitingRange(s.pending, j);
          }
        }
      }
    }
  }

  lemma WaitingRange(pending: nat, j: nat)
    ensures j in Waiting(pending) ==> 0 < j < 32
  {
    BitListMembers(pending, 1, MAX_SIGNALS);
  }

  lemma PostEach(s: State, t: State, signums: seq<int>)
    requires Valid(s) && signums != [] && s.alive && t.handlers == s.handlers
    requires t.alive <==> (0 < signums[0] < 32 ==> s.handlers[signums[0]] != 0)
    ensures (t.alive && forall i :: 0 <= i < |signums[1..]| && 0 < signums[1..][i] < 32 ==> t.handlers[signums[1..][i]] != 0)
            <==> forall i :: 0 <= i < |signums| && 0 < signums[i] < 32 ==> s.handlers[signums[i]] != 0
  {
    assert forall i :: 0 <= i < |signums[1..]| ==> signums[1..][i] == signums[i + 1];
    assert forall i :: 0 < i < |signums| ==> signums[i] == signums[1..][i - 1];
  }

  // ---------- what a trap gives back ----------

  // The C int of a register: its low 32 bits, taken as a signed number.
  lemma AsIntMeans(x: nat)
    ensures -0x8000_0000 <= AsInt(x) < 0x8000_0000 && (x - AsInt(x)) % 0x1_0000_0000 == 0
  {
  }

  // The value a system call other than sigreturn, exit and exec gives: that of the call
  // where it is not about signals, the old handler, or whether the signal could be sent.
  function Answer(s: State, step: Step): nat
    requires Valid(s)
  {
    var arg := AsInt(step.frame.a0);
    if step.frame.a7 == 10 then if 0 < arg < 32 then s.handlers[arg] else 0xffff_ffff_ffff_ffff
    else if step.frame.a7 == 12 && !(0 < AsInt(step.frame.a1) < 32) then 0xffff_ffff_ffff_ffff
    else if step.frame.a7 == 12 && step.env.self then 0
    else step.env.ret
  }

  // The frame with which a process goes on: this one, or, when the trap has entered a
  // handler, the one that was saved for later.
  predicate GoesOnWith(s: State, t: State, f: Frame)
  {
    if !s.handling && t.handling then t.saved == f else t.tf == f
  }

  // An exit, or a process that sends itself a signal without a handler.
  predicate EndsItself(s: State, step: Step)
    requires Valid(s)
  {
    var signum := AsInt(step.frame.a1);
    step.frame.a7 == 6 || (step.frame.a7 == 12 && step.env.self && 0 < signum < 32 && s.handlers[signum] == 0)
  }

  // A system call answers in a0 and leaves the instruction behind; nothing else of the frame
  // changes. It goes on with that frame at once unless a handled signal waits.
  lemma CallAnswers(s: State, step: Step, stack: nat)
    requires Valid(s) && s.alive && step.ecall && step.env.posted == [] && !step.env.ended
    requires step.frame.a7 != 11 && !(step.frame.a7 == 3 && step.env.image.Image?)
    ensures var t := Trap(s, step, stack);
            t.alive ==>
              && GoesOnWith(s, t, step.frame.(sepc := (step.frame.sepc + 4) % 0x1_0000_0000_0000_0000, a0 := Answer(s, step)))
              && (Waiting(s.pending) == [] && step.frame.a7 != 12 ==> t.handling == s.handling)
              && (Waiting(s.pending) != [] && FromUser(step.frame) ==> t.handling)
              && t.handlers == if step.frame.a7 == 10 && 0 < AsInt(step.frame.a0) < 32
                               then s.handlers[AsInt(step.frame.a0) := step.frame.a1] else s.handlers
    ensures EndsItself(s, step) ==> !Trap(s, step, stack).alive
  {
    var u := CallMade(s, step, stack);
    KillKeeps(s, step);
    DeliverGoesOn(u, stack);
  }

  // A process that does not end itself lives on, as long as what waits has handlers.
  lemma LivesOn(s: State, step: Step, stack: nat)
    requires Valid(s) && s.alive && step.ecall && step.env.posted == [] && !step.env.ended
    requires step.frame.a7 != 11 && !(step.frame.a7 == 3 && step.env.image.Image?) && !EndsItself(s, step)
    requires forall j: nat :: j in Waiting(s.pending) ==> j < 32 && s.handlers[j] != 0
    requires step.frame.a7 == 10 ==> step.frame.a1 != 0
    ensures Trap(s, step, stack).alive
  {
    hide Trap, Deliver, Post, Waiting, AsInt, Answer;
    var u := CallMade(s, step, stack);
    PostWaits(s, AsInt(step.frame.a1));
    DeliverGoesOn(u, stack);
  }

  // The state between the call and the delivery.
  lemma CallMade(s: State, step: Step, stack: nat) returns (u: State)
    requires Valid(s) && s.alive && step.ecall && step.env.posted == [] && !step.env.ended
    requires step.frame.a7 != 11 && !(step.frame.a7 == 3 && step.env.image.Image?)
    ensures Valid(u) && u.handling == s.handling && (u.alive <==> !EndsItself(s, step))
    ensures u.alive ==> u.tf == step.frame.(sepc := (step.frame.sepc + 4) % 0x1_0000_0000_0000_0000, a0 := Answer(s, step))
    ensures u.pending == if step.frame.a7 == 12 && step.env.self then Post(s, AsInt(step.frame.a1)).pending else s.pending
    ensures u.handlers == if step.frame.a7 == 10 && 0 < AsInt(step.frame.a0) < 32
                          then s.handlers[AsInt(step.frame.a0) := step.frame.a1] else s.handlers
    ensures Trap(s, step, stack) == if u.alive && FromUser(u.tf) then Deliver(u, stack) else u
  {
    var r := s.(tf := step.frame);
    assert PostAll(r, step.env.posted) == r;
    CallValid(r, step.env);
    u := Call(r, step.env);
    KillKeeps(s, step);
  }

  // Sending a signal takes no waiting one away.
  lemma KillKeeps(s: State, step: Step)
    requires Valid(s) && s.alive
    ensures var t := Post(s, AsInt(step.frame.a1)); t.alive && Waiting(s.pending) != [] ==> Waiting(t.pending) != []
    ensures Post(s.(tf := step.frame.(sepc := (step.frame.sepc + 4) % WORD_LIMIT)), AsInt(step.frame.a1)).pending
            == Post(s, AsInt(step.frame.a1)).pending
  {
    var signum := AsInt(step.frame.a1);
    PostWaits(s, signum);
    if Waiting(s.pending) != [] {
      assert Waiting(s.pending)[0] in Waiting(s.pending);
    }
  }

  lemma DeliverGoesOn(u: State, stack: nat)
    requires Valid(u)
    ensures var t := Deliver(u, stack);
            && (Waiting(u.pending) == [] ==> t == u)
            && (u.alive && (forall j: nat :: j in Waiting(u.pending) ==> j < 32 && u.handlers[j] != 0) ==> t.alive)
            && (t.alive ==> GoesOnWith(u, t, u.tf) && t.handlers == u.handlers && (Waiting(u.pending) != [] ==> t.handling))
  {
  }

  // A trap that is no call leaves the frame as it is.
  lemma InterruptReturns(s: State, step: Step, stack: nat)
    requires Valid(s) && s.alive && !step.ecall
    ensures var t := Trap(s, step, stack);
            && (t.alive ==> GoesOnWith(s, t, step.frame) && t.handlers == s.handlers)
            && (step.env.posted == [] && !step.env.ended && (forall j: nat :: j in Waiting(s.pending) ==> j < 32 && s.handlers[j] != 0)
                ==> t.alive)
  {
    DeliverGoesOn(s.(tf := step.frame), stack);
  }

  // A successful exec starts the new program with a0 == 0, no handlers, and nothing waiting.
  lemma ExecStarts(s: State, step: Step, stack: nat)
    requires Valid(s) && s.alive && step.ecall && step.env.posted == [] && !step.env.ended
    requires step.frame.a7 == 3 && step.env.image.Image?
    ensures var t := Trap(s, step, stack);
            && t.alive && !t.handling && t.pending == 0 && t.tf == step.env.image.start.(a0 := 0)
            && |t.handlers| == 32 && forall i :: 0 <= i < 32 ==> t.handlers[i] == 0
  {
    NothingWaits();
  }

  lemma NothingWaits()
    ensures Waiting(0) == []
  {
    BitListMembers(0, 1, MAX_SIGNALS);
    forall j: nat
      ensures !Bit(0, j)
    {
      ZeroBits(j);
    }
    if Waiting(0) != [] {
      FirstElement(Waiting(0));
    }
  }

  lemma FirstElement(l: seq<nat>)
    requires l != []
    ensures exists j: nat :: j in l
  {
    assert l[0] in l;
  }

  // ---------- the round trip ----------

  // A trap that neither returns from the handler nor replaces the program.
  predicate StaysInHandler(step: Step)
  {
    !(step.ecall && (step.frame.a7 == SYS_SIGRETURN || (step.frame.a7 == SYS_EXEC && step.env.image.Image?)))
  }

  lemma TrapKeepsSaved(s: State, step: Step, stack: nat)
    requires Valid(s) && s.handling && StaysInHandler(step)
    ensures var t := Trap(s, step, stack);
            t.alive ==> t.handling && t.saved == s.saved && t.current == s.current
  {
    var t := PostAll(s.(tf := step.frame), step.env.posted);
    if step.ecall {
      CallKeepsSaved(t, step.env);
      CallValid(t, step.env);
    }
  }

  lemma CallKeepsSaved(s: State, env: Outside)
    requires Valid(s) && s.tf.a7 != SYS_SIGRETURN && (s.tf.a7 == SYS_EXEC ==> env.image.NoImage?)
    ensures var t := Call(s, env);
            t.handling == s.handling && t.saved == s.saved && t.current == s.current
  {
  }

  // Whatever a handler does, the frame saved at delivery stays what it was: system calls,
  // further signals, interrupts.
  lemma {:induction false} HandlerKeepsSaved(s: State, steps: seq<Step>, stack: nat)
    requires Valid(s) && s.handling && forall i :: 0 <= i < |steps| ==> StaysInHandler(steps[i])
    ensures var t := Run(s, steps, stack);
            t.alive ==> t.handling && t.saved == s.saved && t.current == s.current
    decreases |steps|
  {
    if steps != [] && s.alive {
      TrapKeepsSaved(s, steps[0], stack);
      TrapValid(s, steps[0], stack);
      var t := Trap(s, steps[0], stack);
      if t.alive {
        HandlerKeepsSaved(t, steps[1..], stack);
      } else {
        assert Run(t, steps[1..], stack) == t;
      }
    }
  }

  // The process is about to run the handler of this signal, and will go back to f.
  predicate AtHandler(s: State, signum: int, f: Frame, stack: nat)
  {
    true == (&& s.alive && s.handling && s.current == signum && s.saved == f
             && ValidSignal(signum) && |s.handlers| == MAX_SIGNALS
             && s.tf == f.(sepc := s.handlers[signum], ra := 0x033f_f000, sp := stack, a0 := signum))
  }

  predicate IsSigreturn(step: Step)
  {
    step.ecall && step.frame.a7 == 11
  }

  // The process goes on with f, or with the handler of a waiting signal that will go back to
  // f, unless it has ended.
  predicate Restored(t: State, f: Frame, stack: nat)
  {
    true == (t.alive ==> if t.handling then AtHandler(t, t.current, f, stack) else t.tf == f)
  }

  // sigreturn gives back the saved frame bit for bit.
  lemma SigreturnRestores(s: State, step: Step, stack: nat)
    requires Valid(s) && s.handling && IsSigreturn(step) && FromUser(s.saved)
    ensures Restored(Trap(s, step, stack), s.saved, stack)
  {
    var t := PostAll(s.(tf := step.frame), step.env.posted);
    if Waiting(t.pending) != [] {
      LowestIsValid(t.pending);
    }
  }

  // From delivery to sigreturn.
  lemma RoundTrip(s: State, steps: seq<Step>, last: Step, stack: nat)
    requires Valid(s) && s.alive && !s.handling && FromUser(s.tf) && Deliver(s, stack).handling
    requires (forall i :: 0 <= i < |steps| ==> StaysInHandler(steps[i])) && IsSigreturn(last)
    ensures Valid(Deliver(s, stack)) && Valid(Run(Deliver(s, stack), steps, stack))
    ensures var u := Run(Deliver(s, stack), steps, stack);
            u.alive ==> u.handling && u.saved == s.tf && Restored(Trap(u, last, stack), s.tf, stack)
  {
    DeliverValid(s, stack);
    var d := Deliver(s, stack);
    RunValid(d, steps, stack);
    HandlerKeepsSaved(d, steps, stack);
    var u := Run(d, steps, stack);
    if u.alive {
      SigreturnRestores(u, last, stack);
    }
  }

  lemma {:induction false} RunValid(s: State, steps: seq<Step>, stack: nat)
    requires Valid(s)
    ensures Valid(Run(s, steps, stack))
    decreases |steps|
  {
    if steps != [] && s.alive {
      TrapValid(s, steps[0], stack);
      RunValid(Trap(s, steps[0], stack), steps[1..], stack);
    }
  }

  // A sigreturn outside a handler only steps past its ecall, whatever it returns: a0 is left
  // alone. A child forked inside a handler meets this at the end of its copy of the handler.
  lemma StraySigreturn(s: State, step: Step, stack: nat)
    requires Valid(s) && !s.handling && IsSigreturn(step) && s.alive && step.env.posted == [] && !step.env.ended
    requires Waiting(s.pending) == []
    ensures Trap(s, step, stack) == s.(tf := step.frame.(sepc := (step.frame.sepc + 4) % WORD_LIMIT))
  {
  }

  // ---------- all waiting signals ----------

  // A trap in which nobody sends signals, changes handlers or ends the process.
  predicate Peaceful(step: Step)
  {
    && step.env.posted == [] && !step.env.ended && StaysInHandler(step)
    && (step.ecall ==> step.frame.a7 != SYS_SIGNAL && step.frame.a7 != SYS_EXIT && (step.frame.a7 == SYS_KILL ==> !step.env.self))
  }

  // One run of a handler, up to the trap of its sigreturn.
  datatype HandlerRun = HandlerRun(steps: seq<Step>, last: Step)

  predicate PeacefulRun(r: HandlerRun)
  {
    true == ((forall i :: 0 <= i < |r.steps| ==> Peaceful(r.steps[i]))
             && IsSigreturn(r.last) && r.last.env.posted == [] && !r.last.env.ended)
  }

  function RunHandlers(s: State, runs: seq<HandlerRun>, stack: nat): (t: State)
    requires Valid(s)
    ensures Valid(t)
    decreases |runs|
  {
    if runs == [] then s else
    RunValid(s, runs[0].steps, stack);
    var u := Run(s, runs[0].steps, stack);
    TrapValid(u, runs[0].last, stack);
    RunHandlers(Trap(u, runs[0].last, stack), runs[1..], stack)
  }

  lemma {:induction false} PeacefulKeeps(s: State, steps: seq<Step>, stack: nat)
    requires Valid(s) && s.alive && s.handling && forall i :: 0 <= i < |steps| ==> Peaceful(steps[i])
    ensures Run(s, steps, stack) == s.(tf := Run(s, steps, stack).tf)
    decreases |steps|
  {
    if steps != [] {
      TrapValid(s, steps[0], stack);
      PeacefulKeeps(Trap(s, steps[0], stack), steps[1..], stack);
    }
  }

  // No waiting signal would end the process.
  predicate AllHandled(handlers: seq<nat>, todo: seq<nat>)
  {
    forall i :: 0 <= i < |todo| ==> todo[i] < |handlers| && handlers[todo[i]] != 0
  }

  lemma AllHandledTail(handlers: seq<nat>, todo: seq<nat>)
    requires AllHandled(handlers, todo) && todo != []
    ensures AllHandled(handlers, todo[1..])
  {
  }

  predicate AllPeaceful(runs: seq<HandlerRun>)
  {
    true == forall i :: 0 <= i < |runs| ==> PeacefulRun(runs[i])
  }

  lemma AllPeacefulTail(runs: seq<HandlerRun>)
    requires AllPeaceful(runs) && runs != []
    ensures PeacefulRun(runs[0]) && AllPeaceful(runs[1..])
  {
  }

  lemma LaterTail(todo: seq<nat>, k: nat)
    requires k < |todo|
    ensures todo[1..][k..] == todo[k + 1..]
  {
  }

  // The handlers of these signals are due: the first is about to run and the others wait;
  // without any, the process goes on where it was.
  predicate Due(s: State, f: Frame, handlers: seq<nat>, todo: seq<nat>, stack: nat)
  {
    && s.alive && s.handlers == handlers
    && AllHandled(handlers, todo)
    && if todo == [] then !s.handling && s.tf == f && Waiting(s.pending) == []
       else AtHandler(s, todo[0], f, stack) && Waiting(s.pending) == todo[1..]
  }

  lemma DeliverDue(s: State, f: Frame, todo: seq<nat>, stack: nat)
    requires Valid(s) && s.alive && !s.handling && s.tf == f && Waiting(s.pending) == todo
    requires AllHandled(s.handlers, todo)
    ensures Due(Deliver(s, stack), f, s.handlers, todo, stack)
  {
    if todo != [] {
      LowestIsValid(s.pending);
      UnsetLowest(s.pending);
    }
  }

  lemma UnsetLowest(pending: nat)
    requires Waiting(pending) != [] && pending < 0x1_0000_0000
    ensures Waiting(pending)[0] < MAX_SIGNALS
    ensures Waiting(Unset(pending, Waiting(pending)[0])) == Waiting(pending)[1..]
  {
    LowestIsValid(pending);
    WordPow();
    var m := Waiting(pending)[0];
    forall j: nat
      ensures Bit(Unset(pending, m), j) <==> Bit(pending, j) && j != m
    {
      AndClears(pending, m, 64, j);
    }
    ClearLowest(pending, Unset(pending, m), 1, MAX_SIGNALS);
  }

  lemma OneHandler(s: State, f: Frame, todo: seq<nat>, r: HandlerRun, stack: nat)
    requires Valid(s) && Due(s, f, s.handlers, todo, stack) && todo != [] && PeacefulRun(r) && FromUser(f)
    ensures Valid(Run(s, r.steps, stack))
    ensures Due(Trap(Run(s, r.steps, stack), r.last, stack), f, s.handlers, todo[1..], stack)
  {
    PeacefulKeeps(s, r.steps, stack);
    RunValid(s, r.steps, stack);
    SigreturnDue(Run(s, r.steps, stack), f, todo, r.last, stack);
  }

  // The sigreturn at the end of a handler enters the next one.
  lemma SigreturnDue(u: State, f: Frame, todo: seq<nat>, last: Step, stack: nat)
    requires Valid(u) && u.alive && u.handling && u.saved == f && FromUser(f) && todo != []
    requires Waiting(u.pending) == todo[1..] && AllHandled(u.handlers, todo)
    requires IsSigreturn(last) && last.env.posted == [] && !last.env.ended
    ensures Due(Trap(u, last, stack), f, u.handlers, todo[1..], stack)
  {
    var v := Return(u.(tf := last.frame));
    assert v.pending == u.pending && v.handlers == u.handlers;
    AllHandledTail(u.handlers, todo);
    DeliverDue(v, f, todo[1..], stack);
  }

  // The state after the first of several handler runs.
  lemma FirstHandler(s: State, f: Frame, todo: seq<nat>, runs: seq<HandlerRun>, stack: nat) returns (t: State)
    requires Valid(s) && Due(s, f, s.handlers, todo, stack) && todo != [] && FromUser(f)
    requires runs != [] && PeacefulRun(runs[0])
    ensures Valid(t) && Due(t, f, s.handlers, todo[1..], stack)
    ensures RunHandlers(s, runs, stack) == RunHandlers(t, runs[1..], stack)
  {
    OneHandler(s, f, todo, runs[0], stack);
    var u := Run(s, runs[0].steps, stack);
    TrapValid(u, runs[0].last, stack);
    t := Trap(u, runs[0].last, stack);
  }

  // With n handled signals waiting, k handler runs leave the n - k higher ones, and the next
  // of them is at the start of its handler.
  lemma {:induction false} HandlersInOrder(s: State, f: Frame, todo: seq<nat>, runs: seq<HandlerRun>, stack: nat)
    requires Valid(s) && Due(s, f, s.handlers, todo, stack) && FromUser(f)
    requires |runs| <= |todo| && AllPeaceful(runs)
    ensures Due(RunHandlers(s, runs, stack), f, s.handlers, todo[|runs|..], stack)
    decreases |runs|
  {
    if runs != [] {
      AllPeacefulTail(runs);
      var t := FirstHandler(s, f, todo, runs, stack);
      HandlersInOrder(t, f, todo[1..], runs[1..], stack);
      LaterTail(todo, |runs| - 1);
    }
  }

  // The waiting signals are those whose bit is set, in ascending order.
  lemma WaitingAscends(pending: nat)
    ensures forall j :: j in Waiting(pending) <==> 1 <= j < MAX_SIGNALS && Bit(pending, j)
    ensures forall i, j :: 0 <= i < j < |Waiting(pending)| ==> Waiting(pending)[i] < Waiting(pending)[j]
  {
    BitListMembers(pending, 1, MAX_SIGNALS);
  }

  // Exactly as many handlers run as signals wait, each from its start for the next signal of
  // the list, and then the original context resumes with no signal waiting.
  lemma AllWaitingHandled(s: State, runs: seq<HandlerRun>, stack: nat)
    requires Valid(s) && s.alive && !s.handling && FromUser(s.tf) && AllHandled(s.handlers, Waiting(s.pending))
    requires |runs| <= |Waiting(s.pending)| && AllPeaceful(runs)
    ensures Valid(Deliver(s, stack))
    ensures var t, n := RunHandlers(Deliver(s, stack), runs, stack), |Waiting(s.pending)|;
            if |runs| < n then AtHandler(t, Waiting(s.pending)[|runs|], s.tf, stack)
            else !t.handling && t.tf == s.tf && Waiting(t.pending) == []
  {
    DeliverDue(s, s.tf, Waiting(s.pending), stack);
    DeliverValid(s, stack);
    HandlersInOrder(Deliver(s, stack), s.tf, Waiting(s.pending), runs, stack);
  }

  // ---------- a user process ----------

  // The signal fields of task_struct, the frame of its trap, and its signal stack.
  class UserTask {
    const handlers: array<nat>
    const stack: nat
    var pending: nat
    var handling: bool
    var current: int
    var saved: Frame
    var tf: Frame
    var alive: bool

    ghost function View(): State
      reads this, handlers
    {
      State(handlers[..], pending, handling, current, saved, tf, alive)
    }

    ghost predicate Ok()
      reads this, handlers
    {
      Valid(View())
    }

    constructor (frame: Frame, top: nat)
      ensures Ok() && fresh(handlers) && stack == top / 16 * 16
      ensures View() == State(seq(MAX_SIGNALS, _ => 0), 0, false, 0, NO_FRAME, frame, true)
    {
      handlers := new nat[MAX_SIGNALS];
      stack := AlignDown(top, 16);
      pending, handling, current, saved, tf, alive := 0, false, 0, NO_FRAME, frame, true;
      new;
      TaskInit();
    }

    // signal_task_init
    method TaskInit()
      requires handlers.Length == MAX_SIGNALS
      modifies this`pending, this`handling, this`current, this`saved, handlers
      ensures Ok() && View() == Cleared(old(View()))
      ensures handlers[..] == seq(32, _ => 0) && pending == 0 && !handling && current == 0 && saved == NO_FRAME
    {
      for i := 0 to MAX_SIGNALS
        invariant forall k :: 0 <= k < i ==> handlers[k] == 0
      {
        handlers[i] := 0;
      }
      pending, handling, current, saved := 0, false, 0, NO_FRAME;
    }

    // signal_fork, this being the child.
    method InheritFrom(parent: UserTask)
      requires parent.Ok() && handlers.Length == MAX_SIGNALS && parent.handlers != handlers
      modifies this`pending, this`handling, this`current, this`saved, handlers
      ensures Ok() && View() == Forked(old(parent.View()), old(View()))
      ensures handlers[..] == old(parent.handlers[..]) && pending == 0 && !handling && current == 0 && saved == NO_FRAME
    {
      for i := 0 to MAX_SIGNALS
        invariant forall k :: 0 <= k < i ==> handlers[k] == parent.handlers[k]
      {
        handlers[i] := parent.handlers[i];
      }
      pending, handling, current, saved := 0, false, 0, NO_FRAME;
      assert handlers[..] == old(parent.handlers[..]);
    }

    // sys_signal
    method SysSignal(signum: int, handler: nat) returns (ret: nat)
      requires Ok()
      modifies handlers
      ensures Ok() && View() == Register(old(View()), signum, handler)
      ensures handlers[..] == if 0 < signum < 32 then old(handlers[..])[signum := handler] else old(handlers[..])
      ensures ret == if 0 < signum < 32 then old(handlers[signum]) else MINUS_ONE
    {
      if !(signum > 0 && signum < MAX_SIGNALS) {
        return MINUS_ONE;
      }
      ret := handlers[signum];
      handlers[signum] := handler;
    }

    // sys_kill once it has found that this task is meant.
    method SysKill(signum: int) returns (ret: nat)
      requires Ok()
      modifies this`pending, this`alive
      ensures Ok() && View() == Post(old(View()), signum)
      ensures ret == if 0 < signum < 32 && old(alive) then 0 else MINUS_ONE
      ensures alive == (old(alive) && (0 < signum < 32 ==> handlers[signum] != 0))
      ensures alive && 0 < signum < 32 ==> forall j: nat :: j in Waiting(pending) <==> j in Waiting(old(pending)) || j == signum
    {
      PostValid(View(), signum);
      if alive {
        PostWaits(View(), signum);
      }
      if !(signum > 0 && signum < MAX_SIGNALS) {
        return MINUS_ONE;
      }
      if !alive {
        return MINUS_ONE;
      }
      if handlers[signum] == 0 {
        alive := false;
        return 0;
      }
      pending := Or(pending, Pow2(signum));
      ret := 0;
    }

    // find_pending_signal: the lowest waiting signal, 0 for none.
    method FindPending() returns (signum: nat)
      requires Ok()
      ensures signum == if Waiting(pending) == [] then 0 else Waiting(pending)[0]
    {
      signum := 1;
      while signum < MAX_SIGNALS
        invariant 1 <= signum <= MAX_SIGNALS && Waiting(pending) == BitList(pending, signum, MAX_SIGNALS)
      {
        AndTests(pending, signum);
        if And(pending, Pow2(signum)) != 0 {
          return;
        }
        signum := signum + 1;
      }
      signum := 0;
    }

    // pending_signals &= ~signal_bit(signum)
    method ClearPending(signum: nat)
      requires signum < MAX_SIGNALS
      modifies this`pending
      ensures pending == Unset(old(pending), signum)
    {
      Pow2Mono(signum, 64);
      pending := And(pending, Pow2(64) - 1 - Pow2(signum));
    }

    // signal_try_deliver
    method TryDeliver()
      requires Ok()
      modifies this
      ensures Ok() && View() == Deliver(old(View()), stack)
    {
      DeliverValid(View(), stack);
      if handling {
        return;
      }
      var signum := FindPending();
      if signum == 0 {
        if Waiting(pending) != [] {
          LowestIsValid(pending);
        }
        return;
      }
      LowestIsValid(pending);
      var handler := handlers[signum];
      if handler == 0 {
        alive := false;
        return;
      }
      EnterHandler(signum, handler);
    }

    // The part of signal_try_deliver that turns the frame over to the handler.
    method EnterHandler(signum: nat, handler: nat)
      requires signum < MAX_SIGNALS
      modifies this
      ensures View() == old(View()).(pending := Unset(old(pending), signum), handling := true, current := signum,
                                     saved := old(tf),
                                     tf := old(tf).(sepc := handler, ra := SIGTRAMP, sp := stack, a0 := signum))
    {
      ClearPending(signum);
      saved := tf;
      handling := true;
      current := signum;
      tf := tf.(sepc := handler);
      tf := tf.(ra := SIGTRAMP);
      tf := tf.(sp := stack);
      tf := tf.(a0 := signum);
    }

    // sys_sigreturn
    method SysSigreturn() returns (ret: nat)
      requires Ok()
      modifies this
      ensures Ok() && View() == Return(old(View())) && ret == if old(handling) then 0 else MINUS_ONE
      ensures !handling && tf == if old(handling) then old(saved) else old(tf)
    {
      if !handling {
        return MINUS_ONE;
      }
      tf := saved;
      handling := false;
      current := 0;
      saved := NO_FRAME;
      ret := 0;
    }

    // syscall_handler, as far as signals go.
    method SyscallHandler(env: Outside) returns (ret: nat)
      requires Ok() && alive
      modifies this, handlers
      ensures (View(), ret) == Syscall(old(View()), env) && Ok()
    {
      PostValid(View(), AsInt(tf.a1));
      if tf.a7 == SYS_SIGNAL {
        ret := SysSignal(AsInt(tf.a0), tf.a1);
      } else if tf.a7 == SYS_SIGRETURN {
        ret := SysSigreturn();
      } else if tf.a7 == SYS_KILL && !ValidSignal(AsInt(tf.a1)) {
        ret := MINUS_ONE;
      } else if tf.a7 == SYS_KILL && env.self {
        ret := SysKill(AsInt(tf.a1));
      } else if tf.a7 == SYS_EXIT {
        alive := false;
        ret := 0;
      } else if tf.a7 == SYS_EXEC && env.image.Image? {
        TaskInit();
        tf := env.image.start;
        ret := 0;
      } else {
        ret := env.ret;
      }
    }

    // do_trap for a trap from user mode, the frame being already saved in tf. The signals
    // other processes send arrive while this one is off the CPU.
    method DoTrap(ecall: bool, env: Outside)
      requires Ok() && alive
      modifies this, handlers
      ensures Ok() && View() == Trap(old(View()), Step(old(tf), ecall, env), stack)
    {
      ghost var s := View();
      Receive(env.posted);
      if !alive || env.ended {
        alive := false;
        return;
      }
      ghost var t := View();
      CallValid(t, env);
      if ecall {
        var no := tf.a7;
        tf := tf.(sepc := (tf.sepc + 4) % WORD_LIMIT);
        var ret := SyscallHandler(env);
        if no != SYS_SIGRETURN {
          tf := tf.(a0 := ret);
        }
        assert View() == Call(t, env);
      }
      SppTest(tf.sstatus);
      if alive && And(tf.sstatus, 0x100) == 0 {
        TryDeliver();
      }
    }

    method Receive(posted: seq<int>)
      requires Ok()
      modifies this`pending, this`alive
      ensures Ok() && View() == PostAll(old(View()), posted)
    {
      var i := 0;
      while i < |posted|
        invariant 0 <= i <= |posted| && Ok()
        invariant PostAll(View(), posted[i..]) == PostAll(old(View()), posted)
      {
        var ret := SysKill(posted[i]);
        assert posted[i..][1..] == posted[i + 1..];
        i := i + 1;
      }
    }
  }

  lemma SppTest(sstatus: nat)
    ensures And(sstatus, 0x100) == 0 <==> !Bit(sstatus, 8)
  {
    assert Pow2(8) == 0x100;
    AndTests(sstatus, 8);
  }
}
