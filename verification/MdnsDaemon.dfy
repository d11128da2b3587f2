/** The mDNS daemon as its clients see it: a bounded FIFO command channel into a
    worker that announces at most one service, plus the three synchronous helpers
    of `dns_sd.rs` that talk to it.  */
module MdnsDaemon {

  datatype Command = Register | Unregister | Exit

  /** What a client gets back from offering a command to the channel. */
  datatype Reply = Sent | Again | Shutdown | Failed

  /** How a live channel treats an offer; the environment chooses. */
  datatype Wish = Accept | Full | Fault

  datatype Daemon = Daemon(running: bool, announcing: bool, queue: seq<Command>)

  const DAEMON_COMMAND_RETRIES: nat := 100

  function ReplyTo(d: Daemon, wish: Wish): Reply {
    if !d.running then Shutdown
    else match wish case Accept => Sent case Full => Again case Fault => Failed
  }

  /** A command enters the channel exactly when the reply is `Sent`. */
  function Offer(d: Daemon, command: Command, wish: Wish): Daemon {
    if ReplyTo(d, wish) == Sent then d.(queue := d.queue + [command]) else d
  }

  function Stopped(): Daemon {
    Daemon(false, false, [])
  }

  /** The worker takes the oldest command. */
  function Process(d: Daemon): Daemon {
    if !d.running || d.queue == [] then d
    else
      var rest := d.queue[1..];
      match d.queue[0]
      case Register => Daemon(true, true, rest)
      case Unregister => Daemon(true, false, rest)
      case Exit => Stopped()
  }

  function Drained(d: Daemon): Daemon
    decreases |d.queue|
  {
    if !d.running || d.queue == [] then d else Drained(Process(d))
  }

  /** The service is still announced once every queued command took effect. */
  predicate Survives(d: Daemon) {
    Drained(d).running && Drained(d).announcing
  }

  lemma {:induction false} DrainedSnoc(d: Daemon, command: Command)
    requires d.running
    ensures Drained(d.(queue := d.queue + [command]))
         == if Drained(d).running then Process(Drained(d).(queue := [command])) else Drained(d)
    decreases |d.queue|
  {
    var e := d.(queue := d.queue + [command]);
    if d.queue == [] {
      assert e.queue == [command];
      assert Drained(e) == Drained(Process(e));
    } else {
      assert e.queue[0] == d.queue[0] && e.queue[1..] == d.queue[1..] + [command];
      if d.queue[0] != Exit {
        assert Process(e) == Process(d).(queue := Process(d).queue + [command]);
        DrainedSnoc(Process(d), command);
      }
    }
  }

  /** A daemon that has exited announces nothing; neither does one that still has
      an unregister or an exit as its last queued command.  */
  lemma OfferedStopSilences(d: Daemon, command: Command, wish: Wish)
    requires command != Register
    requires ReplyTo(d, wish) == Sent || ReplyTo(d, wish) == Shutdown
    ensures !Survives(Offer(d, command, wish))
  {
    if d.running {
      DrainedSnoc(d, command);
      DrainedIsEmpty(d);
    }
  }

  lemma {:induction false} DrainedIsEmpty(d: Daemon)
    ensures Drained(d).running ==> Drained(d).queue == []
    decreases |d.queue|
  {
    if d.running && d.queue != [] { DrainedIsEmpty(Process(d)); }
  }

  /** Stopping again cannot revive the service. */
  lemma StopKeepsSilence(d: Daemon, command: Command, wish: Wish)
    requires command != Register && !Survives(d)
    ensures !Survives(Offer(d, command, wish))
  {
    if ReplyTo(d, wish) == Sent { OfferedStopSilences(d, command, wish); }
  }

  // ── Synchronous helpers ─────────────────────────────────────────────────────

  /** The number of offers `retry_daemon_command` makes: it gives up on the first
      reply other than `Again`, or after the retry budget is spent.  */
  predicate RetryStopsAt(d: Daemon, wishes: nat -> Wish, k: nat) {
    && k <= DAEMON_COMMAND_RETRIES
    && (forall i: nat | i < k :: ReplyTo(d, wishes(i)) == Again)
    && (ReplyTo(d, wishes(k)) != Again || k == DAEMON_COMMAND_RETRIES)
  }

  class ServiceDaemon {
    var running: bool
    var announcing: bool
    var queue: seq<Command>

    constructor ()
      ensures View() == Daemon(true, false, [])
    {
      running, announcing, queue := true, false, [];
    }

    ghost function View(): Daemon
      reads this
    {
      Daemon(running, announcing, queue)
    }

    method TrySend(command: Command, wish: Wish) returns (reply: Reply)
      modifies this
      ensures reply == ReplyTo(old(View()), wish)
      ensures View() == Offer(old(View()), command, wish)
    {
      if !running {
        return Shutdown;
      }
      match wish {
        case Accept =>
          queue := queue + [command];
          reply := Sent;
        case Full => reply := Again;
        case Fault => reply := Failed;
      }
    }

    /** `retry_daemon_command`: the command is enqueued once if the final reply is
        `Sent` and not at all otherwise, however often it was offered.  */
    method RetryDaemonCommand(command: Command, wishes: nat -> Wish) returns (reply: Reply, offers: nat)
      modifies this
      ensures offers >= 1 && RetryStopsAt(old(View()), wishes, offers - 1)
      ensures reply == ReplyTo(old(View()), wishes(offers - 1))
      ensures View() == Offer(old(View()), command, wishes(offers - 1))
    {
      var retries := DAEMON_COMMAND_RETRIES;
      offers := 0;
      while true
        invariant 0 <= retries == DAEMON_COMMAND_RETRIES - offers
        invariant View() == old(View())
        invariant forall i: nat | i < offers :: ReplyTo(old(View()), wishes(i)) == Again
        decreases retries
      {
        reply := TrySend(command, wishes(offers));
        offers := offers + 1;
        if reply == Again && retries != 0 {
          retries := retries - 1;
        } else {
          return;
        }
      }
    }

    /** `stop_after_unregister`: success means the service is withdrawn, and failure
        leaves it announced only when both commands were refused.  */
    method StopAfterUnregister(unregisterWishes: nat -> Wish, shutdownWishes: nat -> Wish)
      returns (ok: bool, unregistered: Reply, stopped: Reply)
      modifies this
      ensures ok == CloseSucceeds(unregistered, stopped)
      ensures ok ==> !Survives(View())
      ensures Survives(View()) ==> Refused(unregistered) && Refused(stopped)
    {
      var k;
      unregistered, k := RetryDaemonCommand(Unregister, unregisterWishes);
      if unregistered == Sent || unregistered == Shutdown {
        OfferedStopSilences(old(View()), Unregister, unregisterWishes(k - 1));
      }
      if unregistered == Shutdown {
        return true, unregistered, Shutdown;
      }
      ghost var middle := View();
      stopped, k := RetryDaemonCommand(Exit, shutdownWishes);
      if !Refused(stopped) {
        OfferedStopSilences(middle, Exit, shutdownWishes(k - 1));
      }
      ok := unregistered == Sent && !Refused(stopped);
    }
  }

  predicate Refused(reply: Reply) {
    reply == Again || reply == Failed
  }

  /** The result `stop_after_unregister` reports, from the two final replies. */
  predicate CloseSucceeds(unregistered: Reply, stopped: Reply) {
    unregistered == Shutdown || (unregistered == Sent && !Refused(stopped))
  }

  /** The retry loop's stopping point is unique, so the contract of
      `RetryDaemonCommand` fixes its outcome.  */
  lemma RetryStopsOnce(d: Daemon, wishes: nat -> Wish, j: nat, k: nat)
    requires RetryStopsAt(d, wishes, j) && RetryStopsAt(d, wishes, k)
    ensures j == k
  {
  }
}
