/** The Guardian's incident table (packages/guardian) and the two stores that keep it. */
module Guardian {

  import opened Common

  datatype GuardianState = Normal | Halted | RecoveryPending

  datatype Incident = Incident(
    state: GuardianState, reason: string, activatedAt: int, clearedAt: Option<int>)

  /** Incident rows of one workspace by incident id. */
  type Incidents = map<nat, Incident>

  predicate IsActive(rows: Incidents, id: nat) {
    id in rows && rows[id].clearedAt.None?
  }

  /** `GuardianStatus.execution_allowed`. */
  predicate Allowed(rows: Incidents) {
    forall id :: id in rows ==> !IsActive(rows, id)
  }

  /** The row the active-incident query may return: uncleared, activated last. */
  predicate IsLatestActive(rows: Incidents, id: nat) {
    IsActive(rows, id) && forall other :: other in rows && IsActive(rows, other) ==>
      rows[other].activatedAt <= rows[id].activatedAt
  }

  function Inserted(rows: Incidents, id: nat, reason: string, now: int): Incidents {
    rows[id := Incident(Halted, reason, now, None)]
  }

  function Recovered(rows: Incidents, now: int): Incidents {
    map id | id in rows ::
      if rows[id].clearedAt.None? then rows[id].(state := Normal, clearedAt := Some(now)) else rows[id]
  }

  /** A recovery clears every incident that is active at that moment, however many
      racing halts inserted, and touches no other; execution is then allowed. */
  lemma RecoveryClearsExactlyTheActive(rows: Incidents, now: int)
    ensures Allowed(Recovered(rows, now)) && Recovered(rows, now).Keys == rows.Keys
    ensures forall id :: id in rows ==>
      Recovered(rows, now)[id] ==
        if IsActive(rows, id) then rows[id].(state := Normal, clearedAt := Some(now)) else rows[id]
  {
  }

  /** An active incident exists exactly when there is a latest one to report. */
  lemma {:induction false} LatestExists(rows: Incidents)
    ensures !Allowed(rows) <==> exists id :: IsLatestActive(rows, id)
    decreases |rows|
  {
    if !Allowed(rows) {
      var id :| id in rows && IsActive(rows, id);
      var rest := rows - {id};
      assert forall x :: x in rest ==> x in rows && rest[x] == rows[x];
      assert rest.Keys == rows.Keys - {id};
      LatestExists(rest);
      if Allowed(rest) {
        forall other | other in rows && IsActive(rows, other) ensures other == id {
          if other != id { assert other in rest && IsActive(rest, other); }
        }
        assert IsLatestActive(rows, id);
      } else {
        var top :| IsLatestActive(rest, top);
        forall other | other in rows && IsActive(rows, other) && other != id
          ensures rows[other].activatedAt <= rows[top].activatedAt
        {
          assert other in rest && IsActive(rest, other);
        }
        assert IsLatestActive(rows, if rows[id].activatedAt <= rows[top].activatedAt then top else id);
      }
    }
  }

  class PostgresGuardianStore {
    var rows: Incidents

    constructor ()
      ensures rows == map[]
    {
      rows := map[];
    }

    method Active() returns (id: Option<nat>)
      ensures match id case None => Allowed(rows) case Some(x) => IsLatestActive(rows, x)
      ensures id.None? <==> forall x | x in rows :: rows[x].clearedAt.Some?
      ensures id.Some? ==>
        && id.value in rows && rows[id.value].clearedAt.None?
        && forall x | x in rows && rows[x].clearedAt.None? :: rows[x].activatedAt <= rows[id.value].activatedAt
    {
      LatestExists(rows);
      if Allowed(rows) {
        return None;
      }
      var x :| x in rows && IsLatestActive(rows, x);
      return Some(x);
    }

    /** `newId` is the id the new incident would get. */
    method Halt(newId: nat, reason: string, now: int) returns (incident: Incident)
      requires newId !in rows
      modifies this
      ensures old(Allowed(rows)) ==>
        rows == Inserted(old(rows), newId, reason, now) && incident == rows[newId]
      ensures old(Allowed(rows)) ==>
        incident == Incident(Halted, reason, now, None) && rows == old(rows)[newId := incident]
      ensures !old(Allowed(rows)) ==>
        rows == old(rows) && exists id :: IsLatestActive(rows, id) && incident == rows[id]
      ensures !Allowed(rows)
    {
      var existing := Active();
      if existing.Some? {
        assert IsLatestActive(rows, existing.value);
        return rows[existing.value];
      }
      rows := Inserted(rows, newId, reason, now);
      assert IsActive(rows, newId);
      return rows[newId];
    }

    /** Err stands for the RuntimeError of a recovery with unknown broker state. */
    method Recover(brokerStateKnown: bool, now: int) returns (allowed: Result<bool, string>)
      modifies this
      ensures rows == if brokerStateKnown then Recovered(old(rows), now) else old(rows)
      ensures brokerStateKnown ==> allowed == Ok(true) && Allowed(rows)
      ensures !brokerStateKnown ==> allowed.Err?
    {
      if !brokerStateKnown {
        return Err("Guardian recovery requires known reconciled broker state");
      }
      rows := Recovered(rows, now);
      var existing := Active();
      return Ok(existing.None?);
    }
  }

  class MemoryGuardianStore {
    var incident: Option<Incident>

    constructor ()
      ensures incident == None
    {
      incident := None;
    }

    method Halt(reason: string, now: int) returns (reported: Incident)
      modifies this
      ensures incident == Some(reported)
      ensures reported ==
        if old(incident).Some? then old(incident).value else Incident(Halted, reason, now, None)
    {
      if incident.None? {
        incident := Some(Incident(Halted, reason, now, None));
      }
      reported := incident.value;
    }

    method Recover(brokerStateKnown: bool) returns (allowed: Result<bool, string>)
      modifies this
      ensures incident == if brokerStateKnown then None else old(incident)
      ensures allowed.Ok? <==> brokerStateKnown
      ensures allowed.Ok? ==> allowed.value
    {
      if !brokerStateKnown {
        return Err("Guardian recovery requires known reconciled broker state");
      }
      incident := None;
      return Ok(true);
    }
  }
}
