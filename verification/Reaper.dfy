/** Reaping child processes on behalf of those who wait for them (internals/reaper/reaper.go). */
module Reapers {
  import opened Options

  type Pid = int

  /** One call of StartCommand; it also names the channel made there. */
  type Ticket = nat

  /** A child process; those of StartCommand carry its ticket, adopted ones none. */
  datatype Process = Running(ticket: Option<Ticket>) | Zombie(ticket: Option<Ticket>, code: int)

  /** Where reapOnce stands: before Wait4, after it, or with the channel looked up. */
  datatype Reaper = Idle | Collected(pid: Pid, code: int) | Sending(channel: Option<Ticket>, code: int)

  /** Where a WaitCommand stands: blocked on a channel, with the exit code received, or returned. */
  datatype Waiter = Blocked(channel: Ticket) | Received(code: int) | Returned(code: int)

  datatype State = State(
    processes: map<Pid, Process>,
    pids: map<Pid, Ticket>,
    channels: map<Ticket, seq<int>>,
    reaper: Reaper,
    waiters: map<Ticket, Waiter>,
    // what happened so far: the process of each ticket, and how it exited
    started: map<Ticket, Pid>,
    exits: map<Ticket, int>)

  const INIT := State(map[], map[], map[], Idle, map[], map[], map[])

  // ---------- Atomic steps ----------

  datatype Action =
    | StartCommand(pid: Pid, ticket: Ticket)
    | Adopt(pid: Pid)
    | Exit(pid: Pid, code: int)
    | Wait4(pid: Pid)
    | Lookup
    | Send
    | WaitBegin(ticket: Ticket)
    | WaitReceive(ticket: Ticket)
    | WaitRemove(ticket: Ticket)

  /** Channels hold one code: a send to a full one would block. */
  predicate Enabled(s: State, a: Action) {
    match a
    case StartCommand(pid, ticket) => pid !in s.processes && ticket !in s.started
    case Adopt(pid) => pid !in s.processes
    case Exit(pid, code) => pid in s.processes && s.processes[pid].Running?
    case Wait4(pid) => s.reaper.Idle? && pid in s.processes && s.processes[pid].Zombie?
    case Lookup => s.reaper.Collected?
    case Send => s.reaper.Sending? && (s.reaper.channel.Some? ==>
            s.reaper.channel.value in s.channels && s.channels[s.reaper.channel.value] == [])
    case WaitBegin(ticket) => ticket in s.started && ticket !in s.waiters && s.started[ticket] in s.pids
    case WaitReceive(ticket) => ticket in s.waiters && s.waiters[ticket].Blocked?
                                && s.waiters[ticket].channel in s.channels
                                   && s.channels[s.waiters[ticket].channel] != []
    case WaitRemove(ticket) => ticket in s.started && ticket in s.waiters && s.waiters[ticket].Received?
  }

  function Next(s: State, a: Action): State
    requires Enabled(s, a)
  {
    match a
    case StartCommand(pid, ticket) =>
      // A channel already registered for the PID is told to stop waiting.
      var channels := if pid in s.pids && s.pids[pid] in s.channels && s.channels[s.pids[pid]] == []
                      then s.channels[s.pids[pid] := [-1]] else s.channels;
      s.(processes := s.processes[pid := Running(Some(ticket))], pids := s.pids[pid := ticket],
         channels := channels[ticket := []], started := s.started[ticket := pid])
    case Adopt(pid) =>
      s.(processes := s.processes[pid := Running(None)])
    case Exit(pid, code) =>
      var t := s.processes[pid].ticket;
      s.(processes := s.processes[pid := Zombie(t, code)],
         exits := if t.Some? then s.exits[t.value := code] else s.exits)
    case Wait4(pid) =>
      s.(processes := s.processes - {pid}, reaper := Collected(pid, s.processes[pid].code))
    case Lookup =>
      var channel := if s.reaper.pid in s.pids then Some(s.pids[s.reaper.pid]) else None;
      s.(reaper := Sending(channel, s.reaper.code))
    case Send =>
      s.(reaper := Idle,
         channels := if s.reaper.channel.None? then s.channels
                     else s.channels[s.reaper.channel.value := [s.reaper.code]])
    case WaitBegin(ticket) =>
      s.(waiters := s.waiters[ticket := Blocked(s.pids[s.started[ticket]])])
    case WaitReceive(ticket) =>
      var channel := s.waiters[ticket].channel;
      s.(channels := s.channels[channel := s.channels[channel][1..]],
              waiters := s.waiters[ticket := Received(s.channels[channel][0])])
    case WaitRemove(ticket) =>
      s.(pids := s.pids - {s.started[ticket]}, waiters := s.waiters[ticket := Returned(s.waiters[ticket].code)])
  }

  /** Collecting another process under `pid` would do no harm: its code is for nobody, or for a command that has its own
      and whose channel nothing else is on the way to. */
  ghost predicate Harmless(s: State, pid: Pid) {
    pid in s.pids ==>
      var t := s.pids[pid];
      && Delivered(s, t) && t in s.channels && s.channels[t] == []
      && !(s.reaper.Collected? && s.reaper.pid == pid) && !(s.reaper.Sending? && s.reaper.channel == Some(t))
  }

  /** The PID of a new command is neither registered nor just collected; that of an adopted process is harmless. */
  ghost predicate PidUnused(s: State, a: Action) {
    match a
    case StartCommand(pid, _) => pid !in s.pids && !(s.reaper.Collected? && s.reaper.pid == pid)
    case Adopt(pid) => Harmless(s, pid)
    case _ => true
  }

  // ---------- Where the exit code of a command is ----------

  ghost predicate InProcess(s: State, t: Ticket) {
    t in s.started && s.started[t] in s.processes && s.processes[s.started[t]].ticket == Some(t)
  }

  ghost predicate InReaper(s: State, t: Ticket) {
    match s.reaper
    case Idle => false
    case Collected(pid, _) => pid in s.pids && s.pids[pid] == t
    case Sending(channel, _) => channel == Some(t)
  }

  ghost predicate InChannel(s: State, t: Ticket) {
    t in s.channels && s.channels[t] != []
  }

  ghost predicate Delivered(s: State, t: Ticket) {
    t in s.waiters && !s.waiters[t].Blocked?
  }

  function Count(b: bool): nat {
    if b then 1 else 0
  }

  /** The exit code of a command, existing or to come, is in one place only until it is delivered, and right there.
      After that, codes of adopted processes may still reach the channel, one at a time. */
  ghost predicate Tracked(s: State, t: Ticket) {
    && t in s.started && t in s.channels && |s.channels[t]| <= 1
    && (InReaper(s, t) ==> s.channels[t] == [])
    && (if Delivered(s, t) then
          t in s.exits && s.waiters[t].code == s.exits[t] && !InProcess(s, t)
        else
          && Count(InProcess(s, t)) + Count(InReaper(s, t)) + Count(InChannel(s, t)) == 1
          && (InProcess(s, t) ==> match s.processes[s.started[t]]
                                  case Running(_) => t !in s.exits
                                  case Zombie(_, code) => t in s.exits && s.exits[t] == code)
          && (InReaper(s, t) ==> t in s.exits && s.exits[t] == s.reaper.code)
          && (InChannel(s, t) ==> t in s.exits && s.channels[t] == [s.exits[t]]))
    && (t in s.waiters && s.waiters[t].Blocked? ==> s.waiters[t].channel == t)
    && ((t in s.waiters && s.waiters[t].Returned?) <==> !(s.started[t] in s.pids && s.pids[s.started[t]] == t))
  }

  ghost predicate Registered(s: State) {
    && (forall p :: p in s.pids ==> s.pids[p] in s.started && s.started[s.pids[p]] == p)
    && (forall p :: p in s.processes ==>
          match s.processes[p].ticket
          case Some(t) => p in s.pids && s.pids[p] == t && !(s.reaper.Collected? && s.reaper.pid == p)
          case None => Harmless(s, p))
    && (forall t :: t in s.waiters || t in s.exits ==> t in s.started)
    && (s.reaper.Sending? && s.reaper.channel.Some? ==> s.reaper.channel.value in s.started)
  }

  ghost predicate Inv(s: State) {
    Registered(s) && forall t :: t in s.started ==> Tracked(s, t)
  }

  // ---------- Every step keeps it ----------

  /** The ticket a step is about, if there is one. */
  ghost function Subject(s: State, a: Action): Option<Ticket>
    requires Enabled(s, a)
  {
    match a
    case StartCommand(_, _) => None
    case Adopt(_) => None
    case Exit(pid, _) => s.processes[pid].ticket
    case Wait4(pid) => s.processes[pid].ticket
    case Lookup => if s.reaper.pid in s.pids then Some(s.pids[s.reaper.pid]) else None
    case Send => s.reaper.channel
    case WaitBegin(ticket) => Some(ticket)
    case WaitReceive(ticket) => Some(ticket)
    case WaitRemove(ticket) => Some(ticket)
  }

  lemma ChildTracks(s: State, a: Action, t: Ticket)
    requires Registered(s) && Enabled(s, a) && PidUnused(s, a)
    requires t in s.started ==> Tracked(s, t)
    requires Subject(s, a).Some? ==> Subject(s, a).value in s.started && Tracked(s, Subject(s, a).value)
    requires t in Next(s, a).started
    requires a.StartCommand? || a.Adopt? || a.Exit?
    ensures Tracked(Next(s, a), t)
  {
  }

  lemma ReapTracks(s: State, a: Action, t: Ticket)
    requires Registered(s) && Enabled(s, a) && PidUnused(s, a)
    requires t in s.started ==> Tracked(s, t)
    requires Subject(s, a).Some? ==> Subject(s, a).value in s.started && Tracked(s, Subject(s, a).value)
    requires t in Next(s, a).started
    requires a.Wait4? || a.Lookup? || a.Send?
    ensures Tracked(Next(s, a), t)
  {
  }

  lemma WaitTracks(s: State, a: Action, t: Ticket)
    requires Registered(s) && Enabled(s, a) && PidUnused(s, a)
    requires t in s.started ==> Tracked(s, t)
    requires Subject(s, a).Some? ==> Subject(s, a).value in s.started && Tracked(s, Subject(s, a).value)
    requires t in Next(s, a).started
    requires a.WaitBegin? || a.WaitReceive? || a.WaitRemove?
    ensures Tracked(Next(s, a), t)
  {
  }

  lemma StepTracks(s: State, a: Action, t: Ticket)
    requires Registered(s) && Enabled(s, a) && PidUnused(s, a)
    requires t in s.started ==> Tracked(s, t)
    requires Subject(s, a).Some? ==> Subject(s, a).value in s.started && Tracked(s, Subject(s, a).value)
    requires t in Next(s, a).started
    ensures Tracked(Next(s, a), t)
  {
    hide Registered, Tracked, Enabled, PidUnused, Subject, Next;
    if a.StartCommand? || a.Adopt? || a.Exit? {
      ChildTracks(s, a, t);
    } else if a.Wait4? || a.Lookup? || a.Send? {
      ReapTracks(s, a, t);
    } else {
      WaitTracks(s, a, t);
    }
  }

  lemma ChildRegisters(s: State, a: Action)
    requires Registered(s) && Enabled(s, a) && PidUnused(s, a)
    requires Subject(s, a).Some? ==> Subject(s, a).value in s.started && Tracked(s, Subject(s, a).value)
    requires a.StartCommand? || a.Adopt? || a.Exit?
    ensures Registered(Next(s, a))
  {
  }

  lemma ReapRegisters(s: State, a: Action)
    requires Registered(s) && Enabled(s, a) && PidUnused(s, a)
    requires Subject(s, a).Some? ==> Subject(s, a).value in s.started && Tracked(s, Subject(s, a).value)
    requires a.Wait4? || a.Lookup? || a.Send?
    ensures Registered(Next(s, a))
  {
  }

  lemma WaitRegisters(s: State, a: Action)
    requires Registered(s) && Enabled(s, a) && PidUnused(s, a)
    requires Subject(s, a).Some? ==> Subject(s, a).value in s.started && Tracked(s, Subject(s, a).value)
    requires a.WaitBegin? || a.WaitReceive? || a.WaitRemove?
    ensures Registered(Next(s, a))
  {
  }

  lemma StepRegisters(s: State, a: Action)
    requires Registered(s) && Enabled(s, a) && PidUnused(s, a)
    requires Subject(s, a).Some? ==> Subject(s, a).value in s.started && Tracked(s, Subject(s, a).value)
    ensures Registered(Next(s, a))
  {
    hide Registered, Tracked, Enabled, PidUnused, Subject, Next;
    if a.StartCommand? || a.Adopt? || a.Exit? {
      ChildRegisters(s, a);
    } else if a.Wait4? || a.Lookup? || a.Send? {
      ReapRegisters(s, a);
    } else {
      WaitRegisters(s, a);
    }
  }

  lemma SubjectStarted(s: State, a: Action)
    requires Registered(s) && Enabled(s, a)
    ensures Subject(s, a).Some? ==> Subject(s, a).value in s.started
  {
  }

  lemma StepKeeps(s: State, a: Action)
    requires Inv(s) && Enabled(s, a) && PidUnused(s, a)
    ensures Inv(Next(s, a))
  {
    hide Registered, Tracked, Enabled, PidUnused;
    SubjectStarted(s, a);
    StepRegisters(s, a);
    forall t | t in Next(s, a).started
      ensures Tracked(Next(s, a), t)
    {
      StepTracks(s, a, t);
    }
  }

  // ---------- Every run ----------

  /** The state after a list of steps, if all of them are possible. */
  function Run(s: State, actions: seq<Action>): Option<State>
    decreases |actions|
  {
    if actions == [] then Some(s)
    else if !Enabled(s, actions[0]) then None
    else Run(Next(s, actions[0]), actions[1..])
  }

  /** In no step of the run does the kernel hand out a PID in use by this package. */
  ghost predicate PidsUnused(s: State, actions: seq<Action>)
    decreases |actions|
  {
    actions == []
      || (PidUnused(s, actions[0]) && (Enabled(s, actions[0]) ==> PidsUnused(Next(s, actions[0]), actions[1..])))
  }

  lemma {:induction false} RunKeeps(s: State, actions: seq<Action>)
    requires Inv(s) && PidsUnused(s, actions)
    ensures Run(s, actions).Some? ==> Inv(Run(s, actions).value)
    decreases |actions|
  {
    if actions != [] && Enabled(s, actions[0]) {
      StepKeeps(s, actions[0]);
      RunKeeps(Next(s, actions[0]), actions[1..]);
    }
  }

  // ---------- What the package promises ----------

  /** A code that was received is the command's own. */
  ghost predicate RightCode(s: State, t: Ticket) {
    Delivered(s, t) ==> t in s.exits && s.waiters[t].code == s.exits[t]
  }

  /** An exit code is delivered, or still with the zombie, with the reaper, or in the command's own channel. */
  ghost predicate CodeKept(s: State, t: Ticket) {
    t in s.exits ==>
      && t in s.started
      && (|| Delivered(s, t)
          || (s.started[t] in s.processes && s.processes[s.started[t]] == Zombie(Some(t), s.exits[t]))
          || (InReaper(s, t) && s.reaper.code == s.exits[t])
          || (t in s.channels && s.channels[t] == [s.exits[t]]))
  }

  /** A wait for the command finds its channel, however late it comes. */
  ghost predicate WaitFindsChannel(s: State, t: Ticket) {
    t in s.started && t !in s.waiters ==> Enabled(s, WaitBegin(t)) && s.pids[s.started[t]] == t
  }

  /** The reaper does not block on a send. */
  ghost predicate SendFits(s: State) {
    s.reaper.Sending? ==> Enabled(s, Send)
  }

  ghost predicate Sound(s: State) {
    SendFits(s) && forall t :: RightCode(s, t) && CodeKept(s, t) && WaitFindsChannel(s, t)
  }

  lemma InvIsSound(s: State)
    requires Inv(s)
    ensures Sound(s)
  {
    if s.reaper.Sending? && s.reaper.channel.Some? {
      assert Tracked(s, s.reaper.channel.value);
    }
    forall t
      ensures RightCode(s, t) && CodeKept(s, t) && WaitFindsChannel(s, t)
    {
      assert t in s.started ==> Tracked(s, t);
    }
  }

  /** In every interleaving codes are right and not lost, waits find their channel, and the reaper does not block. */
  lemma RunIsSound(actions: seq<Action>)
    requires PidsUnused(INIT, actions) && Run(INIT, actions).Some?
    ensures Sound(Run(INIT, actions).value)
  {
    RunKeeps(INIT, actions);
    InvIsSound(Run(INIT, actions).value);
  }

  // ---------- A code can always be delivered ----------

  /** How many steps the exit code of a command is away from the one waiting for it. */
  ghost function Distance(s: State, t: Ticket): nat {
    if InChannel(s, t) then 1
    else
      (if InReaper(s, t) then 0 else 3)
      + (match s.reaper case Idle => 1 case Sending(_, _) => 2 case Collected(_, _) => 3)
  }

  /** The step that brings the code of an exited command closer. */
  ghost function Toward(s: State, t: Ticket): Action
    requires t in s.started
  {
    if InChannel(s, t) then WaitReceive(t)
    else match s.reaper case Idle => Wait4(s.started[t]) case Sending(_, _) => Send case Collected(_, _) => Lookup
  }

  lemma TowardDelivers(s: State, t: Ticket)
    requires Registered(s) && t in s.exits && t in s.started && Tracked(s, t)
    requires t in s.waiters && s.waiters[t].Blocked?
    requires s.reaper.Sending? && s.reaper.channel.Some? ==> Tracked(s, s.reaper.channel.value)
    ensures var a := Toward(s, t);
            && Enabled(s, a) && PidUnused(s, a) && Next(s, a).exits == s.exits
            && if InChannel(s, t) then t in Next(s, a).waiters && Next(s, a).waiters[t] == Received(s.exits[t])
               else Next(s, a).waiters == s.waiters && Distance(Next(s, a), t) < Distance(s, t)
  {
  }

  /** Whoever waits for a command that has exited gets its code within six steps of the reaper and the waiter. */
  lemma {:induction false} CodeArrives(s: State, t: Ticket) returns (actions: seq<Action>)
    requires Inv(s) && t in s.exits && t in s.waiters && s.waiters[t].Blocked?
    ensures |actions| <= Distance(s, t) <= 6
    ensures forall i :: 0 <= i < |actions| ==>
            actions[i] == WaitReceive(t) || actions[i].Wait4? || actions[i].Lookup? || actions[i].Send?
    ensures Run(s, actions).Some?
    ensures var r := Run(s, actions).value; t in r.waiters && r.waiters[t] == Received(s.exits[t])
    decreases Distance(s, t)
  {
    hide Tracked, Enabled, Next, PidUnused, InChannel, InReaper;
    assert Registered(s);
    TowardDelivers(s, t);
    var a := Toward(s, t);
    if InChannel(s, t) {
      actions := [a];
      assert [a][1..] == [];
    } else {
      StepKeeps(s, a);
      var rest := CodeArrives(Next(s, a), t);
      actions := [a] + rest;
      assert actions[1..] == rest;
    }
  }

  // ---------- The condition on PIDs is exact ----------

  /** No process begins in these steps. */
  predicate NoneStarts(actions: seq<Action>) {
    forall i :: 0 <= i < |actions| ==> !actions[i].StartCommand? && !actions[i].Adopt?
  }

  lemma {:induction false} NoneStartsUnused(s: State, actions: seq<Action>)
    requires NoneStarts(actions)
    ensures PidsUnused(s, actions)
    decreases |actions|
  {
    if actions != [] && Enabled(s, actions[0]) {
      NoneStartsUnused(Next(s, actions[0]), actions[1..]);
    }
  }

  lemma RunFirst(s: State, a: Action, more: seq<Action>)
    requires Enabled(s, a)
    ensures Run(s, [a] + more) == Run(Next(s, a), more)
  {
    assert ([a] + more)[1..] == more;
  }

  lemma RunNone(s: State)
    ensures Run(s, []) == Some(s)
  {
  }

  /** The steps that hand a collected code to the command registered under its PID. */
  lemma HandedOver(s: State, pid: Pid, t: Ticket) returns (more: seq<Action>)
    requires s.reaper.Collected? && s.reaper.pid == pid && pid in s.pids && s.pids[pid] == t
    requires t in s.channels && s.channels[t] == [] && t in s.started && s.started[t] == pid && t !in s.waiters
    ensures NoneStarts(more) && Run(s, more).Some?
    ensures Delivered(Run(s, more).value, t) && Run(s, more).value.exits == s.exits
  {
    var s1 := Next(s, Lookup);
    var s2 := Next(s1, Send);
    var s3 := Next(s2, WaitBegin(t));
    var s4 := Next(s3, WaitReceive(t));
    assert Delivered(s4, t) && s4.exits == s.exits;
    hide Run, Next, Enabled, Delivered;
    RunNone(s4);
    RunFirst(s3, WaitReceive(t), []);
    more := [WaitReceive(t)] + [];
    RunFirst(s2, WaitBegin(t), more);
    more := [WaitBegin(t)] + more;
    RunFirst(s1, Send, more);
    more := [Send] + more;
    RunFirst(s, Lookup, more);
    more := [Lookup] + more;
  }

  /** A command started under the PID of a process just collected is handed the code of that process. */
  lemma CollectedPidGivesWrongCode(s: State, pid: Pid, t: Ticket) returns (more: seq<Action>)
    requires Inv(s) && Enabled(s, StartCommand(pid, t)) && s.reaper.Collected? && s.reaper.pid == pid
    ensures NoneStarts(more) && Run(Next(s, StartCommand(pid, t)), more).Some?
    ensures var r := Run(Next(s, StartCommand(pid, t)), more).value; Delivered(r, t) && t !in r.exits
  {
    assert t !in s.started && t !in s.waiters && t !in s.exits;
    hide Inv, Run, Delivered;
    more := HandedOver(Next(s, StartCommand(pid, t)), pid, t);
  }

  /** The end of a wait removes the registration of another command under the same PID. */
  lemma RemovalBreaks(s: State, owner: Ticket, t: Ticket)
    requires owner in s.started && owner in s.waiters && s.waiters[owner].Received?
    requires t in s.started && s.started[t] == s.started[owner] && t !in s.waiters && t != owner
    ensures Run(s, [WaitRemove(owner)]).Some? && !Sound(Run(s, [WaitRemove(owner)]).value)
  {
    RunFirst(s, WaitRemove(owner), []);
    assert [WaitRemove(owner)] + [] == [WaitRemove(owner)];
    assert !WaitFindsChannel(Next(s, WaitRemove(owner)), t);
  }

  /** A command started under a registered PID takes over the registration: the command that had it is not found
      any more, or removes it when its wait ends, or finds the reaper blocked. */
  lemma RegisteredPidBreaks(s: State, pid: Pid, t: Ticket) returns (more: seq<Action>)
    requires Inv(s) && Enabled(s, StartCommand(pid, t)) && pid in s.pids
             && !(s.reaper.Collected? && s.reaper.pid == pid)
    ensures NoneStarts(more) && Run(Next(s, StartCommand(pid, t)), more).Some?
    ensures !Sound(Run(Next(s, StartCommand(pid, t)), more).value)
  {
    var owner := s.pids[pid];
    assert Tracked(s, owner) && owner != t && t !in s.waiters && t !in s.exits;
    hide Inv, Registered;
    var s0 := Next(s, StartCommand(pid, t));
    more := [];
    if owner !in s.waiters {
      assert !WaitFindsChannel(s0, owner);
    } else if s.waiters[owner].Received? {
      hide Run, Tracked, Sound;
      RemovalBreaks(s0, owner, t);
      more := [WaitRemove(owner)];
    } else if InReaper(s, owner) {
      assert !SendFits(s0);
    } else {
      assert Enabled(s0, WaitReceive(owner));
      hide Run, Tracked, Sound;
      RemovalBreaks(Next(s0, WaitReceive(owner)), owner, t);
      RunFirst(s0, WaitReceive(owner), [WaitRemove(owner)]);
      more := [WaitReceive(owner)] + [WaitRemove(owner)];
    }
  }

  /** The steps that bring the reaper back to where it waits. */
  function Flush(s: State): (more: seq<Action>)
    ensures NoneStarts(more)
  {
    match s.reaper case Idle => [] case Sending(_, _) => [Send] case Collected(_, _) => [Lookup, Send]
  }

  lemma FlushFills(s: State, pid: Pid) returns (r: State)
    requires Inv(s) && pid !in s.processes && pid in s.pids && !Harmless(s, pid)
    ensures var s0 := Next(s, Adopt(pid));
            Run(s0, Flush(s0)) == Some(r) && r.processes == s0.processes && r.pids == s.pids
    ensures r.reaper.Idle? && InChannel(r, s.pids[pid])
  {
    var t := s.pids[pid];
    assert Tracked(s, t);
    var s0 := Next(s, Adopt(pid));
    match s.reaper
    case Idle =>
      r := s0;
    case Sending(channel, _) =>
      assert channel.Some? ==> Tracked(s, channel.value);
      r := Next(s0, Send);
      RunFirst(s0, Send, []);
    case Collected(p, _) =>
      assert p in s.pids ==> Tracked(s, s.pids[p]);
      var s1 := Next(s0, Lookup);
      r := Next(s1, Send);
      RunFirst(s1, Send, []);
      RunFirst(s0, Lookup, [Send]);
      assert [Lookup] + [Send] == Flush(s0);
  }

  lemma {:induction false} RunAppend(s: State, a: seq<Action>, b: seq<Action>)
    requires Run(s, a).Some?
    ensures Run(s, a + b) == Run(Run(s, a).value, b)
    decreases |a|
  {
    if a == [] {
      assert a + b == b;
    } else {
      assert (a + b)[1..] == a[1..] + b;
      RunAppend(Next(s, a[0]), a[1..], b);
    }
  }

  /** The steps that bring the code of an adopted process to a channel that is full. */
  lemma SecondCode(s: State, pid: Pid) returns (more: seq<Action>)
    requires pid in s.processes && s.processes[pid] == Running(None) && s.reaper.Idle?
    requires pid in s.pids && InChannel(s, s.pids[pid])
    ensures NoneStarts(more) && Run(s, more).Some? && !SendFits(Run(s, more).value)
  {
    var s1 := Next(s, Exit(pid, 0));
    var s2 := Next(s1, Wait4(pid));
    var s3 := Next(s2, Lookup);
    assert !SendFits(s3);
    hide Run, Next, Enabled, SendFits;
    RunNone(s3);
    RunFirst(s2, Lookup, []);
    more := [Lookup] + [];
    RunFirst(s1, Wait4(pid), more);
    more := [Wait4(pid)] + more;
    RunFirst(s, Exit(pid, 0), more);
    more := [Exit(pid, 0)] + more;
  }

  /** The exit of a process adopted under a registered PID leaves the reaper with two codes for one channel. */
  lemma AdoptionBlocks(s: State, pid: Pid) returns (more: seq<Action>)
    requires Inv(s) && Enabled(s, Adopt(pid)) && !Harmless(s, pid)
    ensures NoneStarts(more) && Run(Next(s, Adopt(pid)), more).Some?
    ensures !SendFits(Run(Next(s, Adopt(pid)), more).value)
  {
    hide Inv, Run, Flush, SendFits;
    var s0 := Next(s, Adopt(pid));
    var s1 := FlushFills(s, pid);
    more := SecondCode(s1, pid);
    RunAppend(s0, Flush(s0), more);
    more := Flush(s0) + more;
  }

  lemma SafeStepStaysSound(s: State, a: Action, more: seq<Action>)
    requires Inv(s) && Enabled(s, a) && PidUnused(s, a)
    requires PidsUnused(Next(s, a), more) && Run(Next(s, a), more).Some?
    ensures Sound(Run(Next(s, a), more).value)
  {
    StepKeeps(s, a);
    RunKeeps(Next(s, a), more);
    InvIsSound(Run(Next(s, a), more).value);
  }

  lemma UnsafeStepBreaks(s: State, a: Action) returns (more: seq<Action>)
    requires Inv(s) && Enabled(s, a) && !PidUnused(s, a)
    ensures NoneStarts(more) && Run(Next(s, a), more).Some? && !Sound(Run(Next(s, a), more).value)
  {
    if a.Adopt? {
      more := AdoptionBlocks(s, a.pid);
    } else if s.reaper.Collected? && s.reaper.pid == a.pid {
      more := CollectedPidGivesWrongCode(s, a.pid, a.ticket);
      assert !RightCode(Run(Next(s, a), more).value, a.ticket);
    } else {
      more := RegisteredPidBreaks(s, a.pid, a.ticket);
    }
  }

  /** Whatever the kernel does later: after a step the promises hold in all continuations
      exactly when the PID handed out in that step was unused. */
  lemma PidUnusedIsExact(s: State, a: Action)
    requires Inv(s) && Enabled(s, a)
    ensures PidUnused(s, a) <==>
              forall more :: PidsUnused(Next(s, a), more) && Run(Next(s, a), more).Some? ==>
                Sound(Run(Next(s, a), more).value)
  {
    hide Inv, Enabled, PidUnused, Sound, Next, PidsUnused, Run;
    if PidUnused(s, a) {
      forall more | PidsUnused(Next(s, a), more) && Run(Next(s, a), more).Some?
        ensures Sound(Run(Next(s, a), more).value)
      {
        SafeStepStaysSound(s, a, more);
      }
    } else {
      var more := UnsafeStepBreaks(s, a);
      NoneStartsUnused(Next(s, a), more);
    }
  }

  // ---------- Runs that break the promises ----------

  /** An adopted process under PID 7 has exited with code 3, and was collected but not looked up. */
  const COLLECTED := State(map[], map[], map[], Collected(7, 3), map[], map[], map[])

  lemma CollectedReached()
    ensures Run(INIT, [Adopt(7), Exit(7, 3), Wait4(7)]) == Some(COLLECTED)
  {
  }

  /** Wait4 frees a PID before the lookup: a command started under it in between, when no PID is tracked, gets
      another process's code. */
  lemma CodeOfAnother()
    ensures Run(INIT, [Adopt(7), Exit(7, 3), Wait4(7)]) == Some(COLLECTED) && COLLECTED.pids == map[]
    ensures var r := Run(COLLECTED, [StartCommand(7, 0), Lookup, Send, WaitBegin(0), WaitReceive(0)]);
            && r.Some? && 0 in r.value.waiters && r.value.waiters[0] == Received(3)
            && 0 !in r.value.exits && 7 in r.value.processes && r.value.processes[7] == Running(Some(0))
  {
    CollectedReached();
  }

  /** Wait4 also frees a PID that is still tracked. A command started under it then fills the channel
      with -1, and the send of the first command's code, with nobody waiting yet, blocks. */
  lemma SendBlocked()
    ensures var r := Run(INIT, [StartCommand(7, 0), Exit(7, 3), Wait4(7), Lookup, StartCommand(7, 1)]);
            r.Some? && r.value.reaper.Sending? && !Enabled(r.value, Send) && r.value.waiters == map[]
  {
  }

  /** A command under PID 7 has exited with code 3, which is in its channel; nobody waits for it yet. */
  const CODE_SENT := State(map[], map[7 := 0], map[0 := [3]], Idle, map[], map[0 := 7], map[0 := 3])

  lemma CodeSentReached()
    ensures Run(INIT, [StartCommand(7, 0), Exit(7, 3), Wait4(7), Lookup, Send]) == Some(CODE_SENT)
  {
    var s := Run(INIT, [StartCommand(7, 0), Exit(7, 3), Wait4(7), Lookup, Send]).value;
    assert s.processes == map[] && s.channels == map[0 := [3]];
  }

  /** An adopted process under its PID blocks the reaper too. */
  lemma AdoptedBlocks()
    ensures Run(INIT, [StartCommand(7, 0), Exit(7, 3), Wait4(7), Lookup, Send]) == Some(CODE_SENT)
    ensures var r := Run(CODE_SENT, [Adopt(7), Exit(7, 5), Wait4(7), Lookup]);
            r.Some? && r.value.reaper.Sending? && !Enabled(r.value, Send)
  {
    CodeSentReached();
  }

  /** A command started while the wait for the other one is ending loses its registration. */
  lemma RegistrationLost()
    ensures Run(INIT, [StartCommand(7, 0), Exit(7, 3), Wait4(7), Lookup, Send]) == Some(CODE_SENT)
    ensures var r := Run(CODE_SENT, [WaitBegin(0), WaitReceive(0), StartCommand(7, 1), WaitRemove(0)]);
            r.Some? && 1 in r.value.started && 1 !in r.value.waiters && !Enabled(r.value, WaitBegin(1))
  {
    CodeSentReached();
  }
}
