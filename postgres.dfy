/**
 * The PostgreSQL store adapter (pulsedb_postgres.c). The pulses table, for the
 * one configured meter, is a map from a pulse's start to its stop (None while
 * the pulse is still open). The connection is a flag: set while a connection
 * with its prepared statements is open, clear where the source has conn NULL.
 * Whether the server answers, and whether each statement succeeds, are inputs.
 */
module Postgres {
  import opened PulseTypes
  import opened Store

  type Table = map<Timeval, Option<Timeval>>

  /** The table after one successful call of each operation, as its SQL statements leave it. */
  function Effect(c: Call, t: Table): (r: Table)
    ensures forall k :: k in t && k != c.start ==> k in r && r[k] == t[k]
    ensures forall k :: k in r && k != c.start ==> k in t
    ensures c.PulseOn? || c.PulseOnOff? ==> c.start in r
    ensures c.PulseCancel? ==> c.start !in r
    ensures c.PulseOff? ==> (c.start in r <==> c.start in t)
    ensures (c.PulseOff? || c.PulseOnOff?) && c.start in r ==> r[c.start] == Some(c.stop)
    ensures c.PulseOn? && c.start in t ==> r == t
  {
    match c
    case PulseOn(start) => if start in t then t else t[start := None]
    case PulseOff(start, stop) => if start in t then t[start := Some(stop)] else t
    case PulseOnOff(start, stop) => t[start := Some(stop)]
    case PulseCancel(start) => t - {start}
  }

  class Database {
    /** conn != NULL */
    var conn: bool
    var rows: Table

    constructor (rows: Table)
      ensures !conn && this.rows == rows
    {
      conn := false;
      this.rows := rows;
    }

    /**
     * db_connect: opens a connection and prepares the five statements when
     * none is open, then checks the connection's status. up is whether the
     * server accepts all of that. On failure the connection is dropped.
     */
    method Connect(up: bool) returns (ok: bool)
      modifies this`conn
      ensures ok == up && conn == up
    {
      if !conn {
        if !up {
          // PQconnectdb returned NULL, or a PQprepare failed (goto fail)
          conn := false;
          return false;
        }
        conn := true;
      }
      if !up {
        // PQstatus(conn) != CONNECTION_OK (goto fail)
        conn := false;
        return false;
      }
      return true;
    }

    /** db_disconnect: deallocates the statements and closes the connection, if one is open. */
    method Disconnect()
      modifies this`conn
      ensures !conn
    {
      if conn {
        conn := false;
      }
    }

    /**
     * pulse_on: "pulse_exists" looks for the row, and "pulse_on" inserts it
     * (with no stop) only when it is missing.
     */
    method PulseOn(on: Timeval, up: bool, existsOk: bool, insertOk: bool) returns (ok: bool)
      modifies this
      ensures ok == (up && existsOk && (on in old(rows) || insertOk))
      ensures ok ==> conn && rows == Effect(Call.PulseOn(on), old(rows))
      ensures !ok ==> !conn && rows == old(rows)
    {
      ok := Connect(up);
      if !ok {
        return;
      }
      if !existsOk {
        Disconnect();
        return false;
      }
      var done := on in rows;
      if done {
        return true;
      }
      if !insertOk {
        Disconnect();
        return false;
      }
      rows := rows[on := None];
      return true;
    }

    /** pulse_off: "pulse_off" sets the stop of the row for on, if there is one; it never inserts. */
    method PulseOff(on: Timeval, off: Timeval, up: bool, updateOk: bool) returns (ok: bool)
      modifies this
      ensures ok == (up && updateOk)
      ensures ok ==> conn && rows == Effect(Call.PulseOff(on, off), old(rows))
      ensures !ok ==> !conn && rows == old(rows)
    {
      ok := Connect(up);
      if !ok {
        return;
      }
      if !updateOk {
        Disconnect();
        return false;
      }
      if on in rows {
        rows := rows[on := Some(off)];
      }
      return true;
    }

    /**
     * pulse_on_off: "pulse_off" sets the stop of an existing row; only when it
     * touched no row does "pulse_on_off" insert the row with its stop.
     */
    method PulseOnOff(on: Timeval, off: Timeval, up: bool, updateOk: bool, insertOk: bool) returns (ok: bool)
      modifies this
      ensures ok == (up && updateOk && (on in old(rows) || insertOk))
      ensures ok ==> conn && rows == old(rows)[on := Some(off)]
      ensures !ok ==> !conn && rows == old(rows)
    {
      ok := Connect(up);
      if !ok {
        return;
      }
      if !updateOk {
        Disconnect();
        return false;
      }
      var touched := if on in rows then 1 else 0;
      if on in rows {
        rows := rows[on := Some(off)];
      }
      var done := touched != 0;
      if done {
        return true;
      }
      if !insertOk {
        Disconnect();
        return false;
      }
      rows := rows[on := Some(off)];
      return true;
    }

    /** pulse_cancel: "pulse_cancel" deletes the row for on and nothing else. */
    method PulseCancel(on: Timeval, up: bool, deleteOk: bool) returns (ok: bool)
      modifies this
      ensures ok == (up && deleteOk)
      ensures ok ==> conn && rows == old(rows) - {on}
      ensures !ok ==> !conn && rows == old(rows)
    {
      ok := Connect(up);
      if !ok {
        return;
      }
      if !deleteOk {
        Disconnect();
        return false;
      }
      rows := rows - {on};
      return true;
    }
  }

  /** The table after the accepted attempts of a call sequence, in order; refused attempts change nothing. */
  function Replay(attempts: seq<Attempt>, t: Table): Table
  {
    if attempts == [] then t
    else Replay(attempts[1..], if attempts[0].ok then Effect(attempts[0].call, t) else t)
  }

  /** Every store operation is idempotent: repeating a successful call changes nothing. */
  lemma EffectIdempotent(c: Call, t: Table)
    ensures Effect(c, Effect(c, t)) == Effect(c, t)
  {
  }

  /** c applied once for each true in applied, in order. */
  function Repeat(c: Call, applied: seq<bool>, t: Table): Table
  {
    if applied == [] then t
    else Repeat(c, applied[1..], if applied[0] then Effect(c, t) else t)
  }

  /**
   * Retrying is safe: however many of the attempts of one call actually took
   * effect (a failure can be reported after the server committed), the table
   * ends as after exactly one.
   */
  lemma {:induction false} RetriesActAsOne(c: Call, applied: seq<bool>, t: Table)
    requires true in applied
    ensures Repeat(c, applied, t) == Effect(c, t)
  {
    if applied[0] {
      RepeatAfterEffect(c, applied[1..], t);
    } else {
      assert true in applied[1..];
      RetriesActAsOne(c, applied[1..], t);
    }
  }

  /** After one application, any further applications of the same call change nothing. */
  lemma {:induction false} RepeatAfterEffect(c: Call, applied: seq<bool>, t: Table)
    ensures Repeat(c, applied, Effect(c, t)) == Effect(c, t)
  {
    if applied != [] {
      EffectIdempotent(c, t);
      RepeatAfterEffect(c, applied[1..], t);
    }
  }

  /** The attempts save makes for one call leave the table as one successful call does. */
  lemma {:induction false} SaveActsOnce(c: Call, n: nat, t: Table)
    ensures Replay(Retried(c, n), t) == Effect(c, t)
  {
    if n > 0 {
      assert Retried(c, n)[1..] == Retried(c, n - 1);
      SaveActsOnce(c, n - 1, t);
    }
  }

  /**
   * save_off's two branches agree: pulse_off after a reported pulse_on leaves
   * the same table as pulse_on_off alone.
   */
  lemma OffAfterOnIsOnOff(t: Table, start: Timeval, stop: Timeval)
    ensures Effect(Call.PulseOff(start, stop), Effect(Call.PulseOn(start), t))
         == Effect(Call.PulseOnOff(start, stop), t)
  {
  }

  /** pulse_off alone records nothing for a start the table does not hold. */
  lemma OffWithoutOnIsLost(t: Table, start: Timeval, stop: Timeval)
    requires start !in t
    ensures Effect(Call.PulseOff(start, stop), t) == t
  {
  }

  /** A close of the pulse from start to stop: pulse_off or pulse_on_off. */
  predicate IsClose(c: Call, start: Timeval, stop: Timeval)
  {
    c == Call.PulseOff(start, stop) || c == Call.PulseOnOff(start, stop)
  }

  function ApplyAll(calls: seq<Call>, t: Table): Table
  {
    if calls == [] then t else ApplyAll(calls[1..], Effect(calls[0], t))
  }

  /**
   * Any sequence of successful calls for one pulse that has this shape (some
   * pulse_on, then closes each of which is pulse_off or pulse_on_off, the
   * first one a pulse_on_off unless a pulse_on came first) leaves the table
   * mapping the pulse's start to its stop, and every other row as it was.
   */
  lemma {:induction false} PulseRecordedWithStop(t: Table, start: Timeval, stop: Timeval, ons: nat, closes: seq<Call>)
    requires closes != []
    requires forall k :: 0 <= k < |closes| ==> IsClose(closes[k], start, stop)
    requires ons > 0 || closes[0].PulseOnOff?
    decreases ons
    ensures ApplyAll(seq(ons, _ => Call.PulseOn(start)) + closes, t) == t[start := Some(stop)]
  {
    if ons > 0 {
      var rest := seq(ons - 1, _ => Call.PulseOn(start)) + closes;
      assert (seq(ons, _ => Call.PulseOn(start)) + closes)[1..] == rest;
      var t' := Effect(Call.PulseOn(start), t);
      if ons - 1 > 0 || closes[0].PulseOnOff? {
        PulseRecordedWithStop(t', start, stop, ons - 1, closes);
      } else {
        assert rest == closes;
        ClosesAfterOpen(t', start, stop, closes);
      }
      assert t'[start := Some(stop)] == t[start := Some(stop)];
    } else {
      assert seq(ons, _ => Call.PulseOn(start)) + closes == closes;
      var t' := Effect(closes[0], t);
      assert t' == t[start := Some(stop)];
      ClosesAfterOpen(t', start, stop, closes[1..]);
    }
  }

  /** Once start is in the table, every close sets its stop and nothing else. */
  lemma {:induction false} ClosesAfterOpen(t: Table, start: Timeval, stop: Timeval, closes: seq<Call>)
    requires start in t
    requires forall k :: 0 <= k < |closes| ==> IsClose(closes[k], start, stop)
    ensures ApplyAll(closes, t) == if closes == [] then t else t[start := Some(stop)]
  {
    if closes != [] {
      var t' := Effect(closes[0], t);
      assert t' == t[start := Some(stop)];
      ClosesAfterOpen(t', start, stop, closes[1..]);
      assert t'[start := Some(stop)] == t[start := Some(stop)];
    }
  }
}
