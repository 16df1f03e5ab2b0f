/**
 * The daemon of pulsedb.c as values: its buffer state and one function per
 * step that changes it. The class in PulseDb implements each step in place
 * and is proved to agree with these functions; the lemmas here say what the
 * steps promise.
 */
module PulseDbSpec {
  import opened PulseTypes
  import opened Store

  /** mq_maxmsg of the backup queue (pulsedb.c:88). */
  const BACKUP_CAPACITY := 2

  /**
   * pulse[2], count and process_on (pulsedb.c:23-25), and the records in the
   * backup queue, oldest first.
   */
  datatype Buffer = Buffer(slots: seq<Pulse>, count: int, processOn: bool, backup: seq<Pulse>)

  predicate WellSized(b: Buffer)
  {
    |b.slots| == 2 && 0 <= b.count <= 2 && |b.backup| <= BACKUP_CAPACITY
  }

  /**
   * The mirror invariant: the backup queue holds exactly the buffered pulses,
   * and they are an On followed, possibly, by an Off.
   */
  predicate Consistent(b: Buffer)
  {
    && WellSized(b)
    && b.backup == b.slots[..b.count]
    && (b.count >= 1 ==> b.slots[0].on)
    && (b.count == 2 ==> !b.slots[1].on)
  }

  // ---------------------------------------------------------------------------
  // The backup queue

  /** backup_pulse (pulsedb.c:117-121): pulse[count] is sent to the backup queue. */
  function Sent(b: Buffer): (r: Buffer)
    requires WellSized(b) && b.count < 2 && |b.backup| < BACKUP_CAPACITY
    ensures WellSized(r) && r.slots == b.slots && r.count == b.count && r.processOn == b.processOn
    ensures |r.backup| == |b.backup| + 1 && r.backup[..|b.backup|] == b.backup
    ensures r.backup[|b.backup|] == b.slots[b.count]
  {
    b.(backup := b.backup + [b.slots[b.count]])
  }

  /** One receive of backup_clear (pulsedb.c:126): the oldest record goes into pulse[--count]. */
  function Unbuffered(b: Buffer): (r: Buffer)
    requires WellSized(b) && 0 < b.count <= |b.backup|
    ensures WellSized(r) && r.count == b.count - 1 && r.processOn == b.processOn
    ensures [r.slots[r.count]] + r.backup == b.backup
    ensures r.slots[..r.count] == b.slots[..r.count]
  {
    b.(count := b.count - 1,
       slots := b.slots[b.count - 1 := b.backup[0]],
       backup := b.backup[1..])
  }

  /**
   * backup_clear (pulsedb.c:123-129): receives are repeated until count is 0,
   * so the records come out in reverse: the oldest lands in pulse[count - 1]
   * and the newest in pulse[0].
   */
  function Cleared(b: Buffer): (r: Buffer)
    requires WellSized(b) && b.count <= |b.backup|
    ensures WellSized(r) && r.count == 0 && r.processOn == b.processOn
    ensures r.backup == b.backup[b.count..]
    ensures r.slots == if b.count == 0 then b.slots
                       else if b.count == 1 then [b.backup[0], b.slots[1]]
                       else [b.backup[1], b.backup[0]]
    decreases b.count
  {
    if b.count == 0 then b
    else
      var u := Unbuffered(b);
      assert u.count == b.count - 1 && u.backup == b.backup[1..] && u.processOn == b.processOn;
      assert u.backup[u.count..] == b.backup[b.count..];
      assert u.slots == if b.count == 1 then [b.backup[0], b.slots[1]] else [b.slots[0], b.backup[0]];
      Cleared(u)
  }

  /** Clearing a consistent buffer empties it and its backup queue and keeps process_on. */
  lemma ClearEmptiesMirror(b: Buffer)
    requires Consistent(b)
    ensures var r := Cleared(b);
            r.count == 0 && r.backup == [] && r.processOn == b.processOn && Consistent(r)
  {
  }

  // ---------------------------------------------------------------------------
  // Admitting a pulse from the main queue

  /** get_data receives the next pulse into pulse[count] (pulsedb.c:275). */
  function Receive(b: Buffer, p: Pulse): Buffer
    requires WellSized(b) && b.count < 2
  {
    b.(slots := b.slots[b.count := p])
  }

  /**
   * handle_pulse runs on a count of 0 or 1 (the assert at pulsedb.c:231), and
   * the backup queue can take what it sends and holds what it receives: a
   * send to a full queue, or a receive from an empty one, ends the process.
   */
  predicate Admissible(b: Buffer)
  {
    && WellSized(b)
    && (b.count == 0 || b.count == 1)
    && (if b.count == 0 then !b.slots[0].on || |b.backup| < BACKUP_CAPACITY
        else if !b.slots[1].on then |b.backup| < BACKUP_CAPACITY
        else |b.backup| >= 1)
  }

  /** handle_pulse as written (pulsedb.c:220-245), on the pulse just received into pulse[count]. */
  function Admit(b: Buffer): (r: Buffer)
    requires Admissible(b)
    ensures WellSized(r)
    ensures r.count == if b.slots[b.count].on then 1 - b.count else 2 * b.count
    ensures b.slots[b.count].on ==> r.processOn && r.slots[0] == b.slots[b.count]
    ensures !b.slots[b.count].on ==> r.processOn == b.processOn
    ensures b.count == 0 && !b.slots[0].on ==> r == b
  {
    if b.count == 0 then
      if b.slots[0].on then Sent(b).(count := 1, processOn := true) else b
    else if !b.slots[1].on then
      Sent(b).(count := 2)
    else
      var c := Sent(Cleared(b));
      c.(slots := c.slots[0 := c.slots[1]], processOn := true)
  }

  /**
   * handle_pulse with its duplicate-On branch corrected: the new On is moved
   * into pulse[0] before it is mirrored, and count goes back to 1.
   */
  function AdmitFixed(b: Buffer): (r: Buffer)
    requires Admissible(b)
    ensures WellSized(r)
    ensures r.count == if b.slots[b.count].on then 1 else 2 * b.count
    ensures b.slots[b.count].on ==> r.processOn && r.slots[0] == b.slots[b.count]
                                    && |r.backup| >= 1 && r.backup[|r.backup| - 1] == b.slots[b.count]
    ensures !b.slots[b.count].on ==> r.processOn == b.processOn
  {
    if b.count == 1 && b.slots[1].on then
      var c := Cleared(b);
      Sent(c.(slots := c.slots[0 := c.slots[1]])).(count := 1, processOn := true)
    else
      Admit(b)
  }

  /** A consistent buffer with room for a pulse can admit any pulse. */
  lemma ConsistentAdmits(b: Buffer, p: Pulse)
    requires Consistent(b) && b.count < 2
    ensures Admissible(Receive(b, p))
  {
  }

  /** With nothing buffered, an On is buffered and mirrored and marked unreported. */
  lemma OnAtZero(b: Buffer, p: Pulse)
    requires Consistent(b) && b.count == 0 && p.on
    ensures var r := Admit(Receive(b, p));
            r.count == 1 && r.slots[0] == p && r.backup == [p] && r.processOn && Consistent(r)
  {
  }

  /** With nothing buffered, an Off is discarded: count, process_on and the backup queue stay as they were. */
  lemma OffAtZero(b: Buffer, p: Pulse)
    requires Consistent(b) && b.count == 0 && !p.on
    ensures var r := Admit(Receive(b, p));
            r.count == 0 && r.backup == b.backup && r.processOn == b.processOn && Consistent(r)
  {
  }

  /** With an On buffered, an Off is buffered after it and mirrored; process_on is kept. */
  lemma OffAtOne(b: Buffer, p: Pulse)
    requires Consistent(b) && b.count == 1 && !p.on
    ensures var r := Admit(Receive(b, p));
            r.count == 2 && r.slots == [b.slots[0], p] && r.backup == b.backup + [p]
            && r.processOn == b.processOn && Consistent(r)
  {
  }

  /**
   * A second On as written: count is left at 0, pulse[0] holds the new On, and
   * the backup queue holds the old On again, so buffer and mirror disagree.
   */
  lemma DuplicateOnAsWritten(b: Buffer, p: Pulse)
    requires Consistent(b) && b.count == 1 && p.on
    ensures var r := Admit(Receive(b, p));
            r.count == 0 && r.slots[0] == p && r.backup == [b.slots[0]] && r.processOn
            && !Consistent(r)
  {
  }

  /**
   * The consequence: after On, On, On from an empty buffer the backup queue
   * is full while count is 1, the second On is gone from buffer and queue, and
   * the matching Off then has to be sent to a full queue, which ends the process.
   */
  lemma DuplicateOnOverflowsBackup(b: Buffer, p: Pulse, q: Pulse, r: Pulse)
    requires Consistent(b) && b.count == 1
    requires p.on && q.on && !r.on && p != q && p != b.slots[0]
    ensures Admissible(Receive(b, p))
    ensures var b2 := Admit(Receive(b, p));
            && b2.count == 0 && Admissible(Receive(b2, q))
            && var b3 := Admit(Receive(b2, q));
            && b3.count == 1 && b3.slots[0] == q && b3.backup == [b.slots[0], q]
            && p !in b3.slots[..b3.count] && p !in b3.backup
            && !Admissible(Receive(b3.(processOn := false), r))
  {
  }

  /** Every admission the corrected handle_pulse makes keeps the mirror invariant. */
  lemma AdmitFixedKeepsConsistent(b: Buffer, p: Pulse)
    requires Consistent(b) && b.count < 2
    ensures Admissible(Receive(b, p))
    ensures Consistent(AdmitFixed(Receive(b, p)))
  {
    if b.count == 0 && p.on {
      OnAtZero(b, p);
    } else if b.count == 0 {
      OffAtZero(b, p);
    } else if !p.on {
      OffAtOne(b, p);
    } else {
      DuplicateOnFixed(b, p);
    }
  }

  /**
   * The corrected duplicate-On branch replaces the buffered On by the new one,
   * in pulse[0] and in the backup queue, and marks it unreported.
   */
  lemma DuplicateOnFixed(b: Buffer, p: Pulse)
    requires Consistent(b) && b.count == 1 && p.on
    ensures var r := AdmitFixed(Receive(b, p));
            r.count == 1 && r.slots[0] == p && r.backup == [p] && r.processOn && Consistent(r)
  {
  }

  /** Away from the duplicate-On branch, handle_pulse as written keeps the mirror invariant. */
  lemma AdmitKeepsConsistent(b: Buffer, p: Pulse)
    requires Consistent(b) && b.count < 2 && !(b.count == 1 && p.on)
    ensures Admissible(Receive(b, p))
    ensures Admit(Receive(b, p)) == AdmitFixed(Receive(b, p)) && Consistent(Admit(Receive(b, p)))
  {
    if b.count == 0 && p.on {
      OnAtZero(b, p);
    } else if b.count == 0 {
      OffAtZero(b, p);
    } else {
      OffAtOne(b, p);
    }
  }

  /**
   * What the daemon as written keeps instead of the mirror invariant: the
   * backup queue holds stale Ons, left by the duplicate-On branch, followed by
   * exactly the buffered pulses. A buffered pair has no stale record before it.
   */
  predicate BackedUp(b: Buffer)
  {
    && WellSized(b)
    && b.count <= |b.backup|
    && (forall i :: 0 <= i < b.count ==> b.backup[|b.backup| - b.count + i] == b.slots[i])
    && (forall i :: 0 <= i < |b.backup| - b.count ==> b.backup[i].on)
    && (b.count >= 1 ==> b.slots[0].on)
    && (b.count == 2 ==> !b.slots[1].on)
  }

  lemma ConsistentIsBackedUp(b: Buffer)
    requires Consistent(b)
    ensures BackedUp(b)
  {
  }

  /** handle_pulse as written keeps the backup queue stale Ons followed by the buffer. */
  lemma AdmitKeepsBackedUp(b: Buffer, p: Pulse)
    requires BackedUp(b) && b.count < 2 && Admissible(Receive(b, p))
    ensures BackedUp(Admit(Receive(b, p)))
  {
    if b.count == 1 && p.on {
      DuplicateOnRotatesBackup(b, p);
    }
  }

  /**
   * The duplicate-On branch as written leaves count at 0 with the queue rotated:
   * its oldest record moves to the back, so the queue holds only Ons.
   */
  lemma DuplicateOnRotatesBackup(b: Buffer, p: Pulse)
    requires BackedUp(b) && b.count == 1 && p.on && |b.backup| >= 1
    ensures var r := Admit(Receive(b, p));
            r.count == 0 && r.backup == b.backup[1..] + [b.backup[0]] && BackedUp(r)
  {
    var r := Admit(Receive(b, p));
    assert b.backup[|b.backup| - 1] == b.slots[0];
    forall i | 0 <= i < |r.backup|
      ensures r.backup[i].on
    {
      if i < |b.backup| - 1 {
        assert r.backup[i] == b.backup[i + 1];
      } else {
        assert r.backup[i] == b.backup[0];
      }
    }
  }

  /** The only sends that can find the backup queue full: an On at count 0, an Off at count 1. */
  lemma FullQueueSends(b: Buffer, p: Pulse)
    requires BackedUp(b) && b.count < 2
    ensures !Admissible(Receive(b, p)) <==>
            |b.backup| == BACKUP_CAPACITY && (if b.count == 0 then p.on else !p.on)
  {
  }

  /**
   * Where the daemon as written sends to a full backup queue: only when a
   * stale On, which only the duplicate-On branch leaves, is queued.
   */
  lemma FullQueueNeedsStaleOn(b: Buffer, p: Pulse)
    requires BackedUp(b) && b.count < 2 && !Admissible(Receive(b, p))
    ensures |b.backup| > b.count && b.backup[0].on
  {
  }

  // ---------------------------------------------------------------------------
  // Reporting to the store

  /** The call save_off makes (pulsedb.c:199-205): pulse_on_off while the On is unreported, pulse_off after. */
  function OffCall(b: Buffer): (r: Call)
    requires |b.slots| == 2
    ensures (r.PulseOnOff? || r.PulseOff?) && r.start == b.slots[0].tv && r.stop == b.slots[1].tv
    ensures r.PulseOnOff? <==> b.processOn
  {
    if b.processOn then PulseOnOff(b.slots[0].tv, b.slots[1].tv)
    else PulseOff(b.slots[0].tv, b.slots[1].tv)
  }

  /** The store call one pass of loop makes before it reads, if any (pulsedb.c:313-320). */
  function Report(b: Buffer): (r: Option<Call>)
    requires |b.slots| == 2
    ensures r.Some? <==> b.count == 2 || (b.count == 1 && b.processOn)
    ensures r.Some? ==> r.value.start == b.slots[0].tv && !r.value.PulseCancel?
  {
    if b.count == 2 then Some(OffCall(b))
    else if b.count == 1 && b.processOn then Some(PulseOn(b.slots[0].tv))
    else None
  }

  /** The buffer after save_on (pulsedb.c:210-218) at count 1; nothing happens at count 0. */
  function Reported(b: Buffer): (r: Buffer)
    ensures r.slots == b.slots && r.count == b.count && r.backup == b.backup
    ensures b.count == 1 ==> !r.processOn
    ensures b.count != 1 ==> r == b
  {
    if b.count == 1 then b.(processOn := false) else b
  }

  /** An open pulse is reported at most once: after save_on, a later pass reports nothing until a new On arrives. */
  lemma OnReportedOnce(b: Buffer)
    requires Consistent(b) && b.count == 1
    ensures Report(Reported(b)) == None && Consistent(Reported(b))
  {
  }

  /** The delay save sleeps after its k-th refused attempt, counting from 0. */
  function Backoff(k: nat): (d: nat)
    ensures 1 <= d
  {
    if k == 0 then 1
    else
      var prev := Backoff(k - 1);
      if prev < 256 then 2 * prev else prev
  }

  /** The schedule in closed form: 2^k for the first eight delays, 256 after that. */
  lemma {:induction false} BackoffSchedule(k: nat)
    ensures Backoff(k) == if k < 8 then Pow2(k) else 256
  {
    if k > 0 {
      BackoffSchedule(k - 1);
      Pow2Below(k - 1);
    }
  }

  /** The first n delays of save's schedule. */
  function Delays(n: nat): (r: seq<nat>)
    ensures |r| == n && forall k :: 0 <= k < n ==> r[k] == Backoff(k)
  {
    if n == 0 then [] else Delays(n - 1) + [Backoff(n - 1)]
  }

  function Pow2(k: nat): nat
  {
    if k == 0 then 1 else 2 * Pow2(k - 1)
  }

  /** The delays are 1, 2, 4, ..., 128, then 256 for ever: never 0 and never above 256. */
  lemma BackoffBounded(k: nat)
    ensures 1 <= Backoff(k) <= 256
    ensures k < 8 ==> Backoff(k + 1) == 2 * Backoff(k)
    ensures k >= 8 ==> Backoff(k) == 256
  {
    BackoffSchedule(k);
    BackoffSchedule(k + 1);
    Pow2Below(k);
  }

  lemma Pow2Below(k: nat)
    ensures Pow2(7) == 128
    ensures k < 8 ==> 1 <= Pow2(k) <= 128
  {
    if k < 8 {
      Pow2Monotone(k, 7);
    }
  }

  lemma {:induction false} Pow2Monotone(i: nat, j: nat)
    requires i <= j
    ensures 1 <= Pow2(i) <= Pow2(j)
  {
    if i < j {
      Pow2Monotone(i, j - 1);
    } else if i > 0 {
      Pow2Monotone(i - 1, i - 1);
    }
  }

  // ---------------------------------------------------------------------------
  // Termination signals

  const SIGHUP := 1
  const SIGINT := 2
  const SIGQUIT := 3
  const SIGTERM := 15

  /** The signals whose handler is handle_signal while get_data runs (pulsedb.c:248-251). */
  predicate IsDieSignal(sig: int)
  {
    sig == SIGHUP || sig == SIGINT || sig == SIGQUIT || sig == SIGTERM
  }

  /** handle_signal (pulsedb.c:40-43): waiting_sig keeps the first signal and ignores the rest. */
  function Caught(waiting: int, sig: int): (r: int)
    ensures waiting != 0 ==> r == waiting
    ensures r == 0 <==> waiting == 0 && sig == 0
  {
    if waiting == 0 then sig else waiting
  }

  /** waiting_sig after the handler has run for each signal of sigs, in order. */
  function CaughtAll(waiting: int, sigs: seq<int>): (r: int)
    ensures r == waiting || r in sigs
    decreases |sigs|
  {
    if sigs == [] then waiting else CaughtAll(Caught(waiting, sigs[0]), sigs[1..])
  }

  predicate AllDieSignals(sigs: seq<int>)
  {
    forall i :: 0 <= i < |sigs| ==> IsDieSignal(sigs[i])
  }

  /** Only the first captured signal is stored: once one is stored it never changes. */
  lemma {:induction false} FirstSignalWins(waiting: int, sigs: seq<int>)
    requires AllDieSignals(sigs)
    ensures CaughtAll(waiting, sigs) == if waiting != 0 || sigs == [] then waiting else sigs[0]
  {
    if sigs != [] {
      StoredSignalStays(Caught(waiting, sigs[0]), sigs[1..]);
    }
  }

  /** Once a signal is stored, no later signal replaces it. */
  lemma {:induction false} StoredSignalStays(waiting: int, sigs: seq<int>)
    requires waiting != 0
    ensures CaughtAll(waiting, sigs) == waiting
    decreases |sigs|
  {
    if sigs != [] {
      StoredSignalStays(waiting, sigs[1..]);
    }
  }

  // ---------------------------------------------------------------------------
  // The main loop

  /**
   * What one wait in get_data brings: a pulse from the main queue, with the
   * termination signals captured while it was handled; or a failed receive
   * (a signal interrupting the wait, or a queue error), after which the
   * process exits through xerror.
   */
  datatype Arrival = Received(event: Pulse, signals: seq<int>) | Interrupted

  /**
   * How loop ends: re-raising the stored signal, exiting on a failed receive,
   * (when nothing more arrives) waiting in get_data for ever, or exiting when
   * backup_pulse finds the backup queue full (the queue is opened O_NONBLOCK,
   * so mq_send fails with EAGAIN and cerror ends the process).
   */
  datatype Exit = Reraised(sig: int) | ReceiveFailed | Idle | BackupFull

  predicate SignalsAreDieSignals(script: seq<Arrival>)
  {
    forall i :: 0 <= i < |script| ==> script[i].Received? ==> AllDieSignals(script[i].signals)
  }

  /** The end loop comes to on a sequence of arrivals. */
  function Outcome(script: seq<Arrival>): (r: Exit)
    ensures r.Reraised? ==> r.sig in CapturedSignals(script)
    ensures !r.BackupFull?
  {
    if script == [] then Idle
    else match script[0]
      case Interrupted => ReceiveFailed
      case Received(_, sigs) => if sigs != [] then Reraised(sigs[0]) else Outcome(script[1..])
  }

  /**
   * The end loop comes to as written, from buffer b: a pass at count 2
   * reports and clears the pair; any other pass reports an open On and admits
   * the next pulse with handle_pulse as written, unless that pulse has to be
   * sent to a full backup queue. It ends as the corrected loop does, unless
   * it dies on a full backup queue first.
   */
  function RunAsWritten(b: Buffer, script: seq<Arrival>): (r: Exit)
    requires BackedUp(b)
    ensures r == Outcome(script) || r == BackupFull
    decreases |script|, b.count
  {
    if b.count == 2 then RunAsWritten(Cleared(b), script)
    else if script == [] then Idle
    else match script[0]
      case Interrupted => ReceiveFailed
      case Received(p, sigs) =>
        var r := Receive(Reported(b), p);
        if !Admissible(r) then BackupFull
        else if sigs != [] then Reraised(sigs[0])
        else AdmitKeepsBackedUp(Reported(b), p); RunAsWritten(Admit(r), script[1..])
  }

  /**
   * No On arrives while one is open (open says whether one is, and a pass
   * that captures a signal is the last one).
   */
  predicate NoRepeatedOn(open: bool, script: seq<Arrival>)
    decreases |script|
  {
    script == [] || match script[0]
      case Interrupted => true
      case Received(p, sigs) => !(open && p.on) && (sigs != [] || NoRepeatedOn(p.on, script[1..]))
  }

  /** Without a repeated On, the daemon as written ends exactly as the corrected one. */
  lemma {:induction false} AsWrittenAgreesWithoutRepeatedOn(b: Buffer, script: seq<Arrival>)
    requires Consistent(b) && NoRepeatedOn(b.count == 1, script)
    ensures BackedUp(b) && RunAsWritten(b, script) == Outcome(script)
    decreases |script|, b.count
  {
    ConsistentIsBackedUp(b);
    if b.count == 2 {
      ClearEmptiesMirror(b);
      AsWrittenAgreesWithoutRepeatedOn(Cleared(b), script);
    } else if script != [] && script[0].Received? {
      var p := script[0].event;
      AdmitKeepsConsistent(Reported(b), p);
      if script[0].signals == [] {
        AsWrittenAgreesWithoutRepeatedOn(Admit(Receive(Reported(b), p)), script[1..]);
      }
    }
  }

  /**
   * On, On, Off arriving while an On is open: the daemon as written dies on the
   * full backup queue, where the corrected one goes on as if they had not come.
   */
  lemma RepeatedOnEndsOnFullQueue(b: Buffer, p: Pulse, q: Pulse, r: Pulse, rest: seq<Arrival>)
    requires Consistent(b) && b.count == 1 && p.on && q.on && !r.on
    ensures var script := [Received(p, []), Received(q, []), Received(r, [])] + rest;
            BackedUp(b) && RunAsWritten(b, script) == BackupFull && Outcome(script) == Outcome(rest)
  {
    var s3 := [Received(r, [])] + rest;
    assert [Received(p, []), Received(q, []), Received(r, [])] + rest == [Received(p, []), Received(q, [])] + s3;
    OnOnFillsBackup(b, p, q, s3);
    var b3 := Buffer([q, p], 1, true, [b.slots[0], q]);
    assert !Admissible(Receive(Reported(b3), r));
    assert s3[1..] == rest;
  }

  /**
   * Two Ons arriving while an On is open: the daemon as written is left with
   * the second one open and the backup queue full, the first one stale at its front.
   */
  lemma OnOnFillsBackup(b: Buffer, p: Pulse, q: Pulse, rest: seq<Arrival>)
    requires Consistent(b) && b.count == 1 && p.on && q.on
    ensures BackedUp(b)
    ensures var b3 := Buffer([q, p], 1, true, [b.slots[0], q]);
            && BackedUp(b3)
            && RunAsWritten(b, [Received(p, []), Received(q, [])] + rest) == RunAsWritten(b3, rest)
            && Outcome([Received(p, []), Received(q, [])] + rest) == Outcome(rest)
  {
    var s2 := [Received(q, [])] + rest;
    assert [Received(p, []), Received(q, [])] + rest == [Received(p, [])] + s2;
    RepeatedOnPass(b, p, s2);
    OnAfterStaleOnPass(b.slots[0], p, q, rest);
  }

  /** The first repeated On: it takes slot 0 and the open On stays queued, stale. */
  lemma RepeatedOnPass(b: Buffer, p: Pulse, rest: seq<Arrival>)
    requires Consistent(b) && b.count == 1 && p.on
    ensures BackedUp(b) && BackedUp(Buffer([p, p], 0, true, [b.slots[0]]))
    ensures RunAsWritten(b, [Received(p, [])] + rest) == RunAsWritten(Buffer([p, p], 0, true, [b.slots[0]]), rest)
    ensures Outcome([Received(p, [])] + rest) == Outcome(rest)
  {
    ConsistentIsBackedUp(b);
    DuplicateOnLeavesOldOn(b, p);
    PassAdmits(b, p, rest);
  }

  /** The next On, at count 0 behind a stale On: it is buffered and queued, and the queue is full. */
  lemma OnAfterStaleOnPass(c: Pulse, p: Pulse, q: Pulse, rest: seq<Arrival>)
    requires c.on && p.on && q.on
    ensures BackedUp(Buffer([p, p], 0, true, [c])) && BackedUp(Buffer([q, p], 1, true, [c, q]))
    ensures RunAsWritten(Buffer([p, p], 0, true, [c]), [Received(q, [])] + rest)
            == RunAsWritten(Buffer([q, p], 1, true, [c, q]), rest)
    ensures Outcome([Received(q, [])] + rest) == Outcome(rest)
  {
    var b2 := Buffer([p, p], 0, true, [c]);
    assert BackedUp(b2);
    OnAtZeroAsWritten(b2, q);
    assert b2.(slots := [q, b2.slots[1]], count := 1, processOn := true, backup := b2.backup + [q])
           == Buffer([q, p], 1, true, [c, q]);
    PassAdmits(b2, q, rest);
  }

  lemma DuplicateOnLeavesOldOn(b: Buffer, p: Pulse)
    requires Consistent(b) && b.count == 1 && p.on
    ensures Admit(Receive(Reported(b), p)) == Buffer([p, p], 0, true, [b.slots[0]])
  {
  }

  lemma OnAtZeroAsWritten(b: Buffer, q: Pulse)
    requires WellSized(b) && b.count == 0 && |b.backup| < BACKUP_CAPACITY && q.on
    ensures Admit(Receive(Reported(b), q)) == b.(slots := [q, b.slots[1]], count := 1, processOn := true,
                                                backup := b.backup + [q])
  {
  }

  /** A pass that admits a pulse and captures no signal hands the rest of the arrivals to the next pass. */
  lemma PassAdmits(b: Buffer, p: Pulse, rest: seq<Arrival>)
    requires BackedUp(b) && b.count < 2 && Admissible(Receive(Reported(b), p))
    ensures BackedUp(Admit(Receive(Reported(b), p)))
    ensures RunAsWritten(b, [Received(p, [])] + rest) == RunAsWritten(Admit(Receive(Reported(b), p)), rest)
    ensures Outcome([Received(p, [])] + rest) == Outcome(rest)
  {
    AdmitKeepsBackedUp(Reported(b), p);
    assert ([Received(p, [])] + rest)[1..] == rest;
  }

  /** The signals captured up to the first failed receive, in order. */
  function CapturedSignals(script: seq<Arrival>): seq<int>
  {
    if script == [] then []
    else match script[0]
      case Interrupted => []
      case Received(_, sigs) => sigs + CapturedSignals(script[1..])
  }

  /**
   * Corrected loop: it re-raises a signal exactly when one is captured before
   * a failed receive, and the signal it re-raises is the one handle_signal
   * stored. ReraisesFirstCaughtAsWritten and CaughtSignalLostOnFullQueue say
   * what is left of this for the loop as written.
   */
  lemma {:induction false} ReraisesFirstCaught(script: seq<Arrival>)
    requires SignalsAreDieSignals(script)
    ensures var stored := CaughtAll(0, CapturedSignals(script));
            (Outcome(script).Reraised? <==> stored != 0)
            && (Outcome(script).Reraised? ==> Outcome(script).sig == stored)
  {
    if script != [] && script[0].Received? {
      var sigs := script[0].signals;
      assert SignalsAreDieSignals(script[1..]) by {
        forall i | 0 <= i < |script[1..]| && script[1..][i].Received?
          ensures AllDieSignals(script[1..][i].signals)
        {
          assert script[1..][i] == script[i + 1];
        }
      }
      assert AllDieSignals(sigs) by {
        assert script[0].Received?;
      }
      ReraisesFirstCaught(script[1..]);
      CaughtAllAppend(0, sigs, CapturedSignals(script[1..]));
      FirstSignalWins(0, sigs);
      if sigs != [] {
        StoredSignalStays(sigs[0], CapturedSignals(script[1..]));
      }
    }
  }

  /**
   * The loop as written re-raises the stored signal exactly as the corrected
   * one does, unless it dies on a full backup queue first.
   */
  lemma ReraisesFirstCaughtAsWritten(b: Buffer, script: seq<Arrival>)
    requires BackedUp(b) && SignalsAreDieSignals(script) && RunAsWritten(b, script) != BackupFull
    ensures var stored := CaughtAll(0, CapturedSignals(script));
            (RunAsWritten(b, script).Reraised? <==> stored != 0)
            && (RunAsWritten(b, script).Reraised? ==> RunAsWritten(b, script).sig == stored)
  {
    ReraisesFirstCaught(script);
  }

  /**
   * The loop as written can lose a captured signal: with an On open, arrivals
   * On, On, then an Off that comes with a termination signal, the send of the
   * Off finds the backup queue full and cerror ends the process before the
   * stored signal is re-raised; the corrected loop re-raises it.
   */
  lemma CaughtSignalLostOnFullQueue(b: Buffer, p: Pulse, q: Pulse, r: Pulse, sig: int)
    requires Consistent(b) && b.count == 1 && p.on && q.on && !r.on && IsDieSignal(sig)
    ensures var script := [Received(p, []), Received(q, []), Received(r, [sig])];
            BackedUp(b) && CaughtAll(0, CapturedSignals(script)) == sig
            && Outcome(script) == Reraised(sig) && RunAsWritten(b, script) == BackupFull
  {
    var s3 := [Received(r, [sig])];
    assert [Received(p, []), Received(q, []), Received(r, [sig])] == [Received(p, []), Received(q, [])] + s3;
    OnOnFillsBackup(b, p, q, s3);
    var b3 := Buffer([q, p], 1, true, [b.slots[0], q]);
    assert !Admissible(Receive(Reported(b3), r));
    CapturedAfterTwoPasses(p, q, s3);
    assert CapturedSignals(s3) == [sig] by {
      assert s3[1..] == [];
    }
  }

  /** Two passes that capture no signal add nothing to the captured signals. */
  lemma CapturedAfterTwoPasses(p: Pulse, q: Pulse, rest: seq<Arrival>)
    ensures CapturedSignals([Received(p, []), Received(q, [])] + rest) == CapturedSignals(rest)
  {
    var s2 := [Received(q, [])] + rest;
    assert ([Received(p, []), Received(q, [])] + rest)[1..] == s2;
    assert s2[1..] == rest;
  }

  /** Running the handler over two lists of signals runs it over the first, then the second. */
  lemma {:induction false} CaughtAllAppend(waiting: int, xs: seq<int>, ys: seq<int>)
    ensures CaughtAll(waiting, xs + ys) == CaughtAll(CaughtAll(waiting, xs), ys)
    decreases |xs|
  {
    if xs == [] {
      assert xs + ys == ys;
    } else {
      assert (xs + ys)[1..] == xs[1..] + ys;
      CaughtAllAppend(Caught(waiting, xs[0]), xs[1..], ys);
    }
  }

  // ---------------------------------------------------------------------------
  // Recovery at startup

  /**
   * backup_load (pulsedb.c:131-165): up to two records are read from the
   * backup queue into pulse[0], pulse[1]; a lone Off is dropped; count becomes
   * the number kept and exactly those records are written back.
   */
  function Loaded(b: Buffer): (r: Buffer)
    requires |b.slots| == 2 && |b.backup| <= BACKUP_CAPACITY
    ensures WellSized(r) && r.processOn == b.processOn
    ensures r.backup == if |b.backup| == 1 && !b.backup[0].on then [] else b.backup
    ensures r.count == |r.backup| && r.slots[..r.count] == r.backup
  {
    var q := b.backup;
    var kept := if |q| == 1 && !q[0].on then 0 else |q|;
    b.(slots := if |q| == 0 then b.slots
                else if |q| == 1 then [q[0], b.slots[1]]
                else [q[0], q[1]],
       count := kept,
       backup := q[..kept])
  }

  /** Loading what load wrote back changes nothing. */
  lemma LoadIdempotent(b: Buffer)
    requires |b.slots| == 2 && |b.backup| <= BACKUP_CAPACITY
    ensures Loaded(Loaded(b)) == Loaded(b)
  {
    var r := Loaded(b);
    var rr := Loaded(r);
    assert rr.slots == r.slots;
  }

  /**
   * What the backup queue can hold when a daemon with the corrected
   * handle_pulse dies: the mirror of a consistent buffer, or what backup_clear
   * has left of an [On, Off] pair. The daemon as written can also leave
   * [On, On] behind (LoadAfterAsWrittenRun).
   */
  predicate Recoverable(q: seq<Pulse>)
  {
    |q| <= BACKUP_CAPACITY && (|q| == 2 ==> q[0].on && !q[1].on)
  }

  lemma LoadRestoresConsistent(b: Buffer)
    requires |b.slots| == 2 && Recoverable(b.backup)
    ensures Consistent(Loaded(b))
  {
  }

  /**
   * A restart after a kill inside save_off (whose save and backup_clear run
   * with the default signal actions): with the pair still queued, the new
   * process rebuilds it with process_on set, so it reports the pair again
   * with pulse_on_off; with one or both records received, it starts empty.
   */
  lemma RestartDuringSaveOff(b: Buffer, k: nat, blank: seq<Pulse>)
    requires Consistent(b) && b.count == 2 && k <= 2 && |blank| == 2
    ensures var r := Loaded(Buffer(blank, 0, true, b.backup[k..]));
            && Consistent(r)
            && (k == 0 ==> r.count == 2 && r.slots == b.slots
                           && Report(r) == Some(PulseOnOff(b.slots[0].tv, b.slots[1].tv)))
            && (k > 0 ==> r.count == 0 && r.backup == [])
  {
  }

  /**
   * What a restart makes of the queue the daemon as written leaves at any
   * point: a consistent buffer, except when the queue holds two Ons, which
   * load takes for an [On, Off] pair, so the next save_off fails its assert
   * that pulse[1] is an Off.
   */
  lemma LoadAfterAsWrittenRun(b: Buffer, blank: seq<Pulse>)
    requires BackedUp(b) && |blank| == 2
    ensures var r := Loaded(Buffer(blank, 0, true, b.backup));
            (Consistent(r) <==> !(|b.backup| == 2 && b.backup[1].on))
            && (|b.backup| == 2 && b.backup[1].on ==> r.count == 2 && r.slots[1].on)
  {
  }
}
