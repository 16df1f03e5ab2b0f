/**
 * The daemon of pulsedb.c in its own form: global state updated in place by
 * the functions of pulsedb.c, with the backup queue held as the sequence of
 * its records and the store as a Recorder. Each method is proved to leave the
 * state that the matching function of PulseDbSpec describes.
 */
module PulseDb {
  import opened PulseTypes
  import opened Store
  import opened PulseDbSpec

  class Daemon {
    /** pulse[2]: the buffered On and Off (pulsedb.c:24). */
    const pulse: array<Pulse>
    /** How many of pulse[] are buffered (pulsedb.c:25). */
    var count: int
    /** Whether the buffered On still has to be reported (pulsedb.c:23). */
    var processOn: bool
    /** The first termination signal captured, or 0 (pulsedb.c:38). */
    var waitingSig: int
    /** The records in the backup queue, oldest first. */
    var backup: seq<Pulse>
    /** The store behind pulse_on, pulse_off, pulse_on_off. */
    const store: Recorder

    ghost predicate Valid()
      reads this, pulse
    {
      pulse.Length == 2 && 0 <= count <= 2 && |backup| <= BACKUP_CAPACITY
    }

    ghost function View(): Buffer
      reads this, pulse
      requires pulse.Length == 2
    {
      Buffer(pulse[..], count, processOn, backup)
    }

    /** The process at startup, before backup_load: persisted is what the backup queue already holds. */
    constructor (persisted: seq<Pulse>, store: Recorder)
      requires |persisted| <= BACKUP_CAPACITY
      ensures Valid() && fresh(pulse)
      ensures View() == Buffer([Blank, Blank], 0, true, persisted)
      ensures waitingSig == 0 && this.store == store
    {
      pulse := new Pulse[2](_ => Blank);
      count := 0;
      processOn := true;
      waitingSig := 0;
      backup := persisted;
      this.store := store;
    }

    /** backup_pulse: a send to a full backup queue ends the process, so the caller leaves room. */
    method BackupPulse()
      requires Valid() && count < 2 && |backup| < BACKUP_CAPACITY
      modifies this`backup
      ensures Valid() && View() == Sent(old(View()))
    {
      backup := backup + [pulse[count]];
    }

    /** backup_clear: a receive from an empty backup queue ends the process, so the caller has count records queued. */
    method BackupClear()
      requires Valid() && count <= |backup|
      modifies this`count, this`backup, pulse
      ensures Valid() && View() == Cleared(old(View()))
    {
      while count > 0
        invariant Valid() && count <= |backup|
        invariant Cleared(View()) == Cleared(old(View()))
        decreases count
      {
        ghost var before := View();
        count := count - 1;
        pulse[count] := backup[0];
        backup := backup[1..];
        assert View() == Unbuffered(before);
      }
    }

    /** backup_load: rebuild the buffer from the backup queue at startup. */
    method BackupLoad()
      requires Valid()
      modifies this`count, this`backup, pulse
      ensures Valid() && View() == Loaded(old(View()))
    {
      var loaded := 0;
      while loaded < 2
        invariant 0 <= loaded <= 2 && loaded <= |old(backup)|
        invariant backup == old(backup)[loaded..]
        invariant forall i :: 0 <= i < 2 ==> pulse[i] == if i < loaded then old(backup)[i] else old(pulse[i])
        invariant count == old(count)
      {
        if backup == [] {
          // the receive fails with EAGAIN: the queue is empty
          break;
        }
        pulse[loaded] := backup[0];
        backup := backup[1..];
        loaded := loaded + 1;
      }
      assert loaded == |old(backup)| && backup == [];
      assert pulse[..] == [pulse[0], pulse[1]];
      if loaded == 1 && !pulse[0].on {
        // discard unknown off pulse
        loaded := 0;
      }
      count := 0;
      while count < loaded
        invariant 0 <= count <= loaded
        invariant backup == pulse[..count]
        invariant pulse[..] == Loaded(old(View())).slots
      {
        BackupPulse();
        count := count + 1;
      }
    }

    /**
     * save: the call is repeated until the store accepts it, sleeping 1, 2,
     * 4, ... up to 256 seconds between attempts; delays lists the sleeps.
     */
    method Save(c: Call) returns (delays: seq<nat>)
      modifies store
      ensures |delays| == NextOutage(old(store.outages))
      ensures delays == Delays(|delays|)
      ensures store.attempts == old(store.attempts) + Retried(c, |delays|)
      ensures store.outages == RestOutages(old(store.outages))
    {
      ghost var attempts0, outages0 := store.attempts, store.outages;
      var backoff := 1;
      delays := [];
      var ok := store.Submit(c);
      while !ok
        invariant backoff == Backoff(|delays|) && delays == Delays(|delays|)
        invariant store.attempts == attempts0 + Refused(c, |delays|) + [Attempt(c, ok)]
        invariant ok ==> |delays| == NextOutage(outages0) && store.outages == RestOutages(outages0)
        invariant !ok ==> |delays| < NextOutage(outages0)
                          && store.outages == [NextOutage(outages0) - |delays| - 1] + outages0[1..]
        decreases if ok then 0 else NextOutage(store.outages) + 1
      {
        delays := delays + [backoff];
        if backoff < 256 {
          backoff := backoff * 2;
        }
        ok := store.Submit(c);
      }
    }

    /** save_off: report the buffered pair, then take it out of the backup queue. */
    method SaveOff() returns (delays: seq<nat>)
      requires Valid() && count <= |backup|
      requires pulse[0].on && !pulse[1].on
      modifies this`count, this`backup, pulse, store
      ensures Valid() && View() == Cleared(old(View()))
      ensures |delays| == NextOutage(old(store.outages))
      ensures store.attempts == old(store.attempts) + Retried(OffCall(old(View())), |delays|)
      ensures store.outages == RestOutages(old(store.outages))
    {
      if processOn {
        delays := Save(PulseOnOff(pulse[0].tv, pulse[1].tv));
      } else {
        delays := Save(PulseOff(pulse[0].tv, pulse[1].tv));
      }
      BackupClear();
    }

    /** save_on: report the buffered On once. */
    method SaveOn() returns (delays: seq<nat>)
      requires Valid() && pulse[0].on
      modifies this`processOn, store
      ensures Valid() && View() == old(View()).(processOn := false)
      ensures old(processOn) ==> |delays| == NextOutage(old(store.outages))
                                 && store.attempts == old(store.attempts) + Retried(PulseOn(pulse[0].tv), |delays|)
                                 && store.outages == RestOutages(old(store.outages))
      ensures !old(processOn) ==> delays == [] && store.attempts == old(store.attempts)
                                  && store.outages == old(store.outages)
    {
      delays := [];
      if processOn {
        delays := Save(PulseOn(pulse[0].tv));
        processOn := false;
      }
    }

    /** handle_pulse as written, on the pulse just received into pulse[count]. */
    method HandlePulse()
      requires Valid() && Admissible(View())
      modifies this`count, this`backup, this`processOn, pulse
      ensures Valid() && View() == Admit(old(View()))
    {
      if count == 0 {
        if pulse[count].on {
          BackupPulse();
          count := count + 1;
          processOn := true;
        }
      } else if !pulse[count].on {
        BackupPulse();
        count := count + 1;
      } else {
        BackupClear();
        BackupPulse();
        pulse[0] := pulse[1];
        processOn := true;
      }
    }

    /** handle_pulse with the duplicate-On branch corrected: the new On replaces the old one and count is 1. */
    method HandlePulseFixed()
      requires Valid() && Admissible(View())
      modifies this`count, this`backup, this`processOn, pulse
      ensures Valid() && View() == AdmitFixed(old(View()))
    {
      if count == 1 && pulse[1].on {
        BackupClear();
        pulse[0] := pulse[1];
        BackupPulse();
        count := 1;
        processOn := true;
      } else {
        HandlePulse();
      }
    }

    /** handle_signal. */
    method HandleSignal(sig: int)
      requires IsDieSignal(sig)
      modifies this`waitingSig
      ensures waitingSig == Caught(old(waitingSig), sig)
    {
      if waitingSig == 0 {
        waitingSig := sig;
      }
    }

    /**
     * signal_dispatch: unblocking the die signals delivers the ones captured
     * meanwhile to handle_signal; sigs is the order of delivery, which POSIX
     * does not tie to the order of arrival.
     */
    method SignalDispatch(sigs: seq<int>)
      requires AllDieSignals(sigs)
      modifies this`waitingSig
      ensures waitingSig == CaughtAll(old(waitingSig), sigs)
    {
      var i := 0;
      while i < |sigs|
        invariant 0 <= i <= |sigs|
        invariant CaughtAll(waitingSig, sigs[i..]) == CaughtAll(old(waitingSig), sigs)
      {
        assert sigs[i..] == [sigs[i]] + sigs[i + 1..];
        HandleSignal(sigs[i]);
        i := i + 1;
      }
    }

    /**
     * get_data after a successful receive into pulse[count]: p is admitted by
     * handle_pulse as written, then the signals captured meanwhile reach
     * handle_signal when they are unblocked. full says that backup_pulse found
     * the backup queue full, which ends the process there.
     */
    method GetData(p: Pulse, sigs: seq<int>) returns (full: bool)
      requires Valid() && count < 2 && BackedUp(View())
      requires AllDieSignals(sigs)
      modifies this`count, this`backup, this`processOn, this`waitingSig, pulse
      ensures Valid() && BackedUp(View())
      ensures full == !Admissible(Receive(old(View()), p))
      ensures full ==> View() == Receive(old(View()), p) && waitingSig == old(waitingSig)
      ensures !full ==> View() == Admit(Receive(old(View()), p))
                        && waitingSig == CaughtAll(old(waitingSig), sigs)
    {
      FullQueueSends(View(), p);
      pulse[count] := p;
      assert View() == Receive(old(View()), p);
      full := |backup| == BACKUP_CAPACITY && (if count == 0 then p.on else !p.on);
      if full {
        return;
      }
      AdmitKeepsBackedUp(old(View()), p);
      HandlePulse();
      SignalDispatch(sigs);
    }

    /**
     * One pass of loop's body: at count 2 the pair is reported and cleared and
     * nothing is read; otherwise an open On is reported and then the next
     * arrival (None: nothing arrives) is read. read says whether it waited;
     * full says that handle_pulse had to send the pulse read to a full backup
     * queue, which ends the process before the pulse changes anything.
     */
    method Step(next: Option<Arrival>) returns (read: bool, full: bool)
      requires Valid() && BackedUp(View())
      requires next.Some? && next.value.Received? ==> AllDieSignals(next.value.signals)
      modifies this`count, this`backup, this`processOn, this`waitingSig, pulse, store
      ensures Valid() && BackedUp(View())
      ensures read == (old(count) != 2)
      ensures full == (read && next.Some? && next.value.Received?
                       && !Admissible(Receive(Reported(old(View())), next.value.event)))
      ensures old(Report(View())).None? ==> store.attempts == old(store.attempts)
      ensures old(Report(View())).Some? ==>
        store.attempts == old(store.attempts) + Retried(old(Report(View())).value, NextOutage(old(store.outages)))
      ensures old(count) == 2 ==> View() == Cleared(old(View())) && waitingSig == old(waitingSig)
      ensures old(count) != 2 && next.Some? && next.value.Received? && !full ==>
        View() == Admit(Receive(Reported(old(View())), next.value.event))
        && waitingSig == CaughtAll(old(waitingSig), next.value.signals)
      ensures full ==> View() == Receive(Reported(old(View())), next.value.event) && waitingSig == old(waitingSig)
      ensures old(count) != 2 && !(next.Some? && next.value.Received?) ==>
        View() == Reported(old(View())) && waitingSig == old(waitingSig)
    {
      full := false;
      if count == 2 {
        ClearEmptiesMirror(View());
        ConsistentIsBackedUp(Cleared(View()));
        var _ := SaveOff();
        read := false;
      } else {
        if count == 1 {
          var _ := SaveOn();
        }
        read := true;
        if next.Some? && next.value.Received? {
          full := GetData(next.value.event, next.value.signals);
        }
      }
    }

    /**
     * loop: passes run until a signal has been stored, then it is re-raised.
     * script lists what each wait in get_data brings; a failed receive ends
     * the process, and the end of script stands for a wait that never ends.
     */
    method Loop(script: seq<Arrival>) returns (exit: Exit)
      requires Valid() && BackedUp(View()) && waitingSig == 0
      requires SignalsAreDieSignals(script)
      modifies this`count, this`backup, this`processOn, this`waitingSig, pulse, store
      ensures Valid() && BackedUp(View())
      ensures exit == RunAsWritten(old(View()), script)
      ensures exit.Reraised? ==> exit.sig == waitingSig
      ensures old(store.attempts) <= store.attempts
    {
      var rest := script;
      while true
        invariant Valid() && BackedUp(View()) && waitingSig == 0
        invariant SignalsAreDieSignals(rest)
        invariant RunAsWritten(View(), rest) == RunAsWritten(old(View()), script)
        invariant old(store.attempts) <= store.attempts
        decreases |rest|, count
      {
        var next := if rest == [] then None else Some(rest[0]);
        ghost var before := View();
        var read, full := Step(next);
        if full {
          return BackupFull;
        }
        if read {
          if rest == [] {
            return Idle;
          }
          if rest[0].Interrupted? {
            return ReceiveFailed;
          }
          FirstSignalWins(0, rest[0].signals);
          assert SignalsAreDieSignals(rest[1..]) by {
            forall i | 0 <= i < |rest[1..]| && rest[1..][i].Received?
              ensures AllDieSignals(rest[1..][i].signals)
            {
              assert rest[1..][i] == rest[i + 1];
            }
          }
          rest := rest[1..];
        }
        if waitingSig != 0 {
          break;
        }
      }
      exit := Reraised(waitingSig);
    }

    /**
     * get_data with handle_pulse corrected: p is admitted, then the signals
     * captured meanwhile reach handle_signal when they are unblocked.
     */
    method GetDataFixed(p: Pulse, sigs: seq<int>)
      requires Valid() && count < 2 && Admissible(Receive(View(), p))
      requires AllDieSignals(sigs)
      modifies this`count, this`backup, this`processOn, this`waitingSig, pulse
      ensures Valid() && View() == AdmitFixed(Receive(old(View()), p))
      ensures waitingSig == CaughtAll(old(waitingSig), sigs)
    {
      pulse[count] := p;
      assert View() == Receive(old(View()), p);
      HandlePulseFixed();
      SignalDispatch(sigs);
    }

    /**
     * One pass of loop's body with handle_pulse corrected, which keeps the
     * mirror invariant.
     */
    method StepFixed(next: Option<Arrival>) returns (read: bool)
      requires Valid() && Consistent(View())
      requires next.Some? && next.value.Received? ==> AllDieSignals(next.value.signals)
      modifies this`count, this`backup, this`processOn, this`waitingSig, pulse, store
      ensures Valid() && Consistent(View())
      ensures read == (old(count) != 2)
      ensures old(Report(View())).None? ==> store.attempts == old(store.attempts)
      ensures old(Report(View())).Some? ==>
        store.attempts == old(store.attempts) + Retried(old(Report(View())).value, NextOutage(old(store.outages)))
      ensures old(count) == 2 ==> View() == Cleared(old(View())) && waitingSig == old(waitingSig)
      ensures old(count) != 2 && next.Some? && next.value.Received? ==>
        View() == AdmitFixed(Receive(Reported(old(View())), next.value.event))
        && waitingSig == CaughtAll(old(waitingSig), next.value.signals)
      ensures old(count) != 2 && !(next.Some? && next.value.Received?) ==>
        View() == Reported(old(View())) && waitingSig == old(waitingSig)
    {
      if count == 2 {
        ClearEmptiesMirror(View());
        var _ := SaveOff();
        read := false;
      } else {
        if count == 1 {
          var _ := SaveOn();
        }
        read := true;
        if next.Some? && next.value.Received? {
          AdmitFixedKeepsConsistent(View(), next.value.event);
          GetDataFixed(next.value.event, next.value.signals);
        }
      }
    }

    /**
     * loop with handle_pulse corrected: its end depends on the arrivals
     * alone, never on the buffer.
     */
    method LoopFixed(script: seq<Arrival>) returns (exit: Exit)
      requires Valid() && Consistent(View()) && waitingSig == 0
      requires SignalsAreDieSignals(script)
      modifies this`count, this`backup, this`processOn, this`waitingSig, pulse, store
      ensures Valid() && Consistent(View())
      ensures exit == Outcome(script)
      ensures exit.Reraised? ==> exit.sig == waitingSig
      ensures old(store.attempts) <= store.attempts
    {
      var rest := script;
      while true
        invariant Valid() && Consistent(View()) && waitingSig == 0
        invariant SignalsAreDieSignals(rest) && Outcome(rest) == Outcome(script)
        invariant old(store.attempts) <= store.attempts
        decreases |rest|, count
      {
        var next := if rest == [] then None else Some(rest[0]);
        var read := StepFixed(next);
        if read {
          if rest == [] {
            return Idle;
          }
          if rest[0].Interrupted? {
            return ReceiveFailed;
          }
          FirstSignalWins(0, rest[0].signals);
          assert SignalsAreDieSignals(rest[1..]) by {
            forall i | 0 <= i < |rest[1..]| && rest[1..][i].Received?
              ensures AllDieSignals(rest[1..][i].signals)
            {
              assert rest[1..][i] == rest[i + 1];
            }
          }
          rest := rest[1..];
        }
        if waitingSig != 0 {
          break;
        }
      }
      exit := Reraised(waitingSig);
    }
  }
}
