/**
  The cost-limit rule table: rows under a unique index on (access key, kind, period), and one
  checkpoint row per rule that goes with it. A write the index forbids is refused.
*/
module RuleTable {
  import opened Wrappers
  import opened QuotaModel

  datatype Row = Row(key: nat, kind: Kind, limit: int, period: int, revision: nat)

  // The restart checkpoint of a rule.
  datatype Saved = Saved(revision: nat, used: int, startedAt: Option<int>, endsAt: Option<int>,
                         generation: nat, version: nat)

  const ZERO_VERSION: nat := 1

  function ZeroState(revision: nat): Saved {
    Saved(revision, 0, None, None, 0, ZERO_VERSION)
  }

  predicate SameSlot(a: Row, b: Row) {
    a.key == b.key && a.kind == b.kind && a.period == b.period
  }

  predicate Unique(rows: map<nat, Row>) {
    forall i, j :: i in rows && j in rows && i != j ==> !SameSlot(rows[i], rows[j])
  }

  predicate Fits(rows: map<nat, Row>, id: nat, row: Row) {
    forall j :: j in rows && j != id ==> !SameSlot(rows[j], row)
  }

  lemma FitsKeepsUnique(rows: map<nat, Row>, id: nat, row: Row)
    requires Unique(rows)
    ensures Unique(rows[id := row]) <==> Fits(rows, id, row)
  {
    var after := rows[id := row];
    if Unique(after) {
      forall j | j in rows && j != id ensures !SameSlot(rows[j], row) {
        assert after[j] == rows[j] && after[id] == row;
      }
    }
  }

  class Table {
    var rows: map<nat, Row>
    var states: map<nat, Saved>
    var nextId: nat

    ghost predicate Valid()
      reads this
    {
      && Unique(rows)
      && nextId > 0
      && (forall id :: id in rows ==> 0 < id < nextId && rows[id].revision > 0)
      && states.Keys == rows.Keys
    }

    // Deleting a rule takes its checkpoint with it.
    method Delete(id: nat)
      requires Valid()
      modifies this`rows, this`states
      ensures Valid()
      ensures rows == old(rows) - {id} && states == old(states) - {id}
    {
      rows, states := rows - {id}, states - {id};
    }

    method SetPeriod(id: nat, key: nat, period: int) returns (affected: nat, ok: bool)
      requires Valid()
      modifies this`rows
      ensures Valid()
      ensures ok <==> (id in old(rows) && old(rows)[id].key == key ==>
                         Fits(old(rows), id, old(rows)[id].(period := period)))
      ensures affected == if ok && id in old(rows) && old(rows)[id].key == key then 1 else 0
      ensures rows == if affected == 1 then old(rows)[id := old(rows)[id].(period := period)] else old(rows)
    {
      if id !in rows || rows[id].key != key {
        return 0, true;
      }
      var row := rows[id].(period := period);
      FitsKeepsUnique(rows, id, row);
      if !Fits(rows, id, row) {
        return 0, false;
      }
      rows := rows[id := row];
      affected, ok := 1, true;
    }

    // A new limit, and with a changed period also the period and the next revision.
    method Update(id: nat, key: nat, limit: int, period: Option<int>, revision: nat) returns (ok: bool)
      requires Valid() && revision > 0
      requires id in rows && rows[id].key == key
      modifies this`rows
      ensures Valid()
      ensures var row := if period.Some? then old(rows)[id].(limit := limit, period := period.value, revision := revision)
                         else old(rows)[id].(limit := limit);
              ok == Fits(old(rows), id, row) && rows == if ok then old(rows)[id := row] else old(rows)
    {
      var row := if period.Some? then rows[id].(limit := limit, period := period.value, revision := revision)
                 else rows[id].(limit := limit);
      FitsKeepsUnique(rows, id, row);
      ok := Fits(rows, id, row);
      if ok {
        rows := rows[id := row];
      }
    }

    // Only the state of the revision that is being left is reset.
    method ResetState(id: nat, current: nat, next: nat) returns (affected: nat)
      requires Valid()
      modifies this`states
      ensures Valid()
      ensures affected == if id in old(states) && old(states)[id].revision == current then 1 else 0
      ensures states == if affected == 1 then old(states)[id := ZeroState(next)] else old(states)
    {
      if id !in states || states[id].revision != current {
        return 0;
      }
      states := states[id := ZeroState(next)];
      affected := 1;
    }

    method Insert(row: Row) returns (id: nat, ok: bool)
      requires Valid() && row.revision > 0
      modifies this
      ensures Valid()
      ensures id == old(nextId)
      ensures ok == Fits(old(rows), id, row)
      ensures ok ==> rows == old(rows)[id := row] && states == old(states)[id := ZeroState(row.revision)]
                     && nextId == id + 1
      ensures !ok ==> rows == old(rows) && states == old(states) && nextId == old(nextId)
    {
      id := nextId;
      FitsKeepsUnique(rows, id, row);
      if !Fits(rows, id, row) {
        return id, false;
      }
      rows, states, nextId := rows[id := row], states[id := ZeroState(row.revision)], id + 1;
      ok := true;
    }
  }
}
