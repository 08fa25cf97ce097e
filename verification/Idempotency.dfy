/** The agent's dedupe table, keyed by client_order_id. */
module Idempotency {
  import opened Common

  datatype IdemStatus = PendingStatus | AcceptedStatus | FilledStatus | CancelledStatus | RejectedStatus

  datatype Record = Record(
    ClientOrderID: string,
    ExchangeOrderID: string,
    Status: IdemStatus,
    MarketRef: real,
    SubmittedAtMs: int,
    LastUpdatedMs: int)
  {
    predicate IsTerminal() {
      Status.FilledStatus? || Status.CancelledStatus? || Status.RejectedStatus?
    }
  }

  type Table = map<string, Record>

  function Upsert(t: Table, rec: Record): Table {
    t[rec.ClientOrderID := rec]
  }

  function WithStatus(t: Table, id: string, status: IdemStatus, exchangeOrderID: string, nowMs: int): Table {
    if id !in t then t
    else
      var rec := t[id];
      t[id := rec.(Status := status,
                   ExchangeOrderID := if exchangeOrderID != "" then exchangeOrderID else rec.ExchangeOrderID,
                   LastUpdatedMs := nowMs)]
  }

  function Purged(t: Table, beforeMs: int): Table {
    map id | id in t && !(t[id].LastUpdatedMs < beforeMs) :: t[id]
  }

  /** What one write does to a table: the row of id becomes rec, nothing else moves. */
  ghost predicate OnlyRow(t: Table, t': Table, id: string, rec: Record) {
    && id in t' && t'[id] == rec
    && forall other | other != id :: (other in t' <==> other in t) && (other in t ==> t'[other] == t[other])
  }

  /** An upsert replaces the whole row, and a status change keeps everything of it
      but status, time and an exchange id that is now known; a purge keeps exactly
      the rows that are not older than its cutoff. */
  lemma TableMeans(t: Table, rec: Record, id: string, status: IdemStatus, ex: string, nowMs: int)
    ensures OnlyRow(t, Upsert(t, rec), rec.ClientOrderID, rec)
    ensures var t' := WithStatus(t, id, status, ex, nowMs);
            if id !in t then t' == t
            else
              && OnlyRow(t, t', id, t'[id])
              && t'[id].Status == status && t'[id].LastUpdatedMs == nowMs
              && t'[id].ExchangeOrderID == (if ex == "" then t[id].ExchangeOrderID else ex)
              && t'[id].ClientOrderID == t[id].ClientOrderID && t'[id].MarketRef == t[id].MarketRef
              && t'[id].SubmittedAtMs == t[id].SubmittedAtMs
    ensures forall k :: k in Purged(t, nowMs) <==> k in t && t[k].LastUpdatedMs >= nowMs
    ensures forall k | k in Purged(t, nowMs) :: Purged(t, nowMs)[k] == t[k]
  {
  }

  /** The table behind SqliteStore. fails says which of the statements issued fail;
      such a statement leaves the table as it was. */
  class SqliteStore {
    const fails: Faults
    var issued: nat
    var rows: Table

    constructor (fails: Faults)
      ensures this.fails == fails && issued == 0 && rows == map[]
    {
      this.fails, issued, rows := fails, 0, map[];
    }

    method Get(clientOrderID: string) returns (rec: Option<Record>, ok: bool)
      modifies this`issued
      ensures ok == !fails(old(issued)) && issued == old(issued) + 1
      ensures rec == if ok && clientOrderID in rows then Some(rows[clientOrderID]) else None
    {
      ok := !fails(issued);
      issued := issued + 1;
      rec := if ok && clientOrderID in rows then Some(rows[clientOrderID]) else None;
    }

    method Put(rec: Record) returns (ok: bool)
      modifies this
      ensures ok == (rec.ClientOrderID != "" && !fails(old(issued)))
      ensures issued == old(issued) + if rec.ClientOrderID == "" then 0 else 1
      ensures rows == if ok then Upsert(old(rows), rec) else old(rows)
    {
      if rec.ClientOrderID == "" {
        return false;
      }
      ok := !fails(issued);
      issued := issued + 1;
      if ok {
        rows := rows[rec.ClientOrderID := rec];
      }
    }

    method UpdateStatus(clientOrderID: string, status: IdemStatus, exchangeOrderID: string, nowMs: int)
      returns (ok: bool)
      modifies this
      ensures ok == (clientOrderID != "" && !fails(old(issued)))
      ensures issued == old(issued) + if clientOrderID == "" then 0 else 1
      ensures rows == if ok then WithStatus(old(rows), clientOrderID, status, exchangeOrderID, nowMs) else old(rows)
    {
      if clientOrderID == "" {
        return false;
      }
      ok := !fails(issued);
      issued := issued + 1;
      if ok && clientOrderID in rows {
        var rec := rows[clientOrderID];
        var ex := if exchangeOrderID != "" then exchangeOrderID else rec.ExchangeOrderID;
        rows := rows[clientOrderID := rec.(Status := status, ExchangeOrderID := ex, LastUpdatedMs := nowMs)];
      }
    }

    method Purge(beforeMs: int) returns (deleted: nat, ok: bool)
      modifies this
      ensures ok == !fails(old(issued)) && issued == old(issued) + 1
      ensures rows == if ok then Purged(old(rows), beforeMs) else old(rows)
      ensures deleted == |old(rows)| - |rows|
    {
      ok := !fails(issued);
      issued, deleted := issued + 1, 0;
      if ok {
        var before := rows;
        rows := map id | id in rows && !(rows[id].LastUpdatedMs < beforeMs) :: rows[id];
        assert rows.Keys <= before.Keys;
        KeysShrink(rows.Keys, before.Keys);
        deleted := |before| - |rows|;
      }
    }
  }

  /** The in-process store: the same table, never failing, and indifferent to an
      empty order id. It has no purge and does not outlive the process. */
  class MemoryStore {
    var rows: Table

    constructor ()
      ensures rows == map[]
    {
      rows := map[];
    }

    method Get(clientOrderID: string) returns (rec: Option<Record>)
      ensures rec == if clientOrderID in rows then Some(rows[clientOrderID]) else None
    {
      rec := if clientOrderID in rows then Some(rows[clientOrderID]) else None;
    }

    method Put(rec: Record)
      modifies this
      ensures rows == Upsert(old(rows), rec)
    {
      rows := rows[rec.ClientOrderID := rec];
    }

    method UpdateStatus(clientOrderID: string, status: IdemStatus, exchangeOrderID: string, nowMs: int)
      modifies this
      ensures rows == WithStatus(old(rows), clientOrderID, status, exchangeOrderID, nowMs)
    {
      if clientOrderID !in rows {
        return;
      }
      var rec := rows[clientOrderID].(Status := status);
      if exchangeOrderID != "" {
        rec := rec.(ExchangeOrderID := exchangeOrderID);
      }
      rows := rows[clientOrderID := rec.(LastUpdatedMs := nowMs)];
    }
  }

  lemma {:induction false} KeysShrink(a: set<string>, b: set<string>)
    requires a <= b
    ensures |a| <= |b|
  {
    if a != {} {
      var x :| x in a;
      KeysShrink(a - {x}, b - {x});
    }
  }
}
