/**
 * The card store behind the service: the Cards table together with the
 * unit of work of the current request (the scoped database context). The
 * table maps ids to committed rows; the unit of work tracks the card
 * objects it has handed out, one per id (its identity map), and stages an
 * insertion and removals until `SaveChanges` writes them.
 */
module Store {
  import opened Wrappers
  import opened Cards

  datatype CommitResult =
    | Committed(affected: nat)
    | Rejected   // the database refused the commit; nothing was written

  class CardStore {
    /** Committed rows of the Cards table by id. */
    var rows: map<int, CardFields>
    /** The next value of the identity column. */
    var nextId: int
    /** Card objects handed out by this unit of work, by id. */
    var tracked: map<int, Card>
    /** The card staged for insertion, if any. */
    var pendingAdd: Option<Card>
    /** Ids of tracked cards staged for deletion. */
    var pendingRemoves: set<int>

    ghost function Objects(): set<Card>
      reads this
    {
      tracked.Values + if pendingAdd.Some? then {pendingAdd.value} else {}
    }

    ghost predicate Valid()
      reads this, Objects()
    {
      && nextId >= 1
      && (forall id :: id in rows ==> 1 <= id < nextId && WithinColumnBounds(rows[id]))
      && tracked.Keys <= rows.Keys
      && (forall id :: id in tracked ==> tracked[id].id == id)
      && pendingRemoves <= tracked.Keys
      && (pendingAdd.Some? ==> pendingAdd.value.id == 0)
    }

    /**
     * Nothing staged and every tracked card still holds its committed
     * values: the state of a unit of work between operations of a request.
     */
    ghost predicate Clean()
      reads this, Objects()
    {
      && Valid()
      && pendingAdd.None?
      && pendingRemoves == {}
      && (forall id :: id in tracked ==> tracked[id].Fields() == rows[id])
    }

    /** Ids of tracked cards, not staged for deletion, whose values were changed. */
    ghost function Modified(): set<int>
      reads this, tracked.Values
      requires tracked.Keys <= rows.Keys
    {
      set id | id in tracked && id !in pendingRemoves && tracked[id].Fields() != rows[id]
    }

    /** The commit succeeds when every row it would write fits the columns. */
    ghost predicate CanCommit()
      reads this, Objects()
    {
      && (pendingAdd.Some? ==> WithinColumnBounds(pendingAdd.value.Fields()))
      && (forall id :: id in tracked && id !in pendingRemoves ==> WithinColumnBounds(tracked[id].Fields()))
    }

    /** The table after the staged removals and the tracked changes are written. */
    ghost function WrittenRows(): map<int, CardFields>
      reads this, tracked.Values
    {
      map id | id in rows && id !in pendingRemoves :: if id in tracked then tracked[id].Fields() else rows[id]
    }

    /**
     * What a commit does to the table: no row appears, the removed rows go,
     * rows the unit of work never loaded keep their values, tracked rows
     * take their cards' values, and the rows whose value changes are
     * exactly the ones counted as modified.
     */
    lemma WrittenRowsFrame()
      requires Valid()
      ensures WrittenRows().Keys <= rows.Keys
      ensures forall id :: id in pendingRemoves ==> id !in WrittenRows()
      ensures forall id :: id in rows && id !in pendingRemoves && id !in tracked ==>
        id in WrittenRows() && WrittenRows()[id] == rows[id]
      ensures forall id :: id in tracked && id !in pendingRemoves ==>
        id in WrittenRows() && WrittenRows()[id] == tracked[id].Fields()
      ensures forall id :: id in WrittenRows() ==> (WrittenRows()[id] != rows[id] <==> id in Modified())
    {
    }

    /** With nothing removed and every tracked card unchanged, writing changes no row. */
    lemma WrittenRowsWhenUnchanged()
      requires Valid() && pendingRemoves == {}
      requires forall id :: id in tracked ==> tracked[id].Fields() == rows[id]
      ensures WrittenRows() == rows
    {
      WrittenRowsFrame();
      assert WrittenRows().Keys == rows.Keys;
      forall id | id in rows
        ensures WrittenRows()[id] == rows[id]
      {
      }
    }

    /** Writing one changed card and nothing else replaces that one row. */
    lemma WrittenRowsAfterUpdate(id: int, f: CardFields)
      requires Valid() && pendingRemoves == {}
      requires id in tracked && tracked[id].Fields() == f
      requires forall k :: k in tracked && k != id ==> tracked[k].Fields() == rows[k]
      ensures WrittenRows() == rows[id := f]
    {
      WrittenRowsFrame();
      assert WrittenRows().Keys == rows[id := f].Keys;
      forall k | k in rows
        ensures WrittenRows()[k] == rows[id := f][k]
      {
      }
    }

    /** Writing one removal and no change deletes that one row. */
    lemma WrittenRowsAfterRemove(id: int)
      requires Valid() && pendingRemoves == {id}
      requires forall k :: k in tracked ==> tracked[k].Fields() == rows[k]
      ensures WrittenRows() == rows - {id}
    {
      WrittenRowsFrame();
      assert WrittenRows().Keys == (rows - {id}).Keys;
      forall k | k in rows - {id}
        ensures WrittenRows()[k] == (rows - {id})[k]
      {
      }
    }

    /**
     * A commit of one removal and nothing else reports exactly one affected
     * row: the count `DeleteCardAsync` compares with 0.
     */
    lemma RemovalCommitCount(id: int)
      requires Valid() && pendingAdd.None? && pendingRemoves == {id}
      requires forall k :: k in tracked ==> tracked[k].Fields() == rows[k]
      ensures (if pendingAdd.Some? then 1 else 0) + |pendingRemoves| + |Modified()| == 1
    {
      assert forall k :: k !in Modified();
      assert Modified() == {};
    }

    /** An empty table and a fresh unit of work; the first id handed out is 1. */
    constructor ()
      ensures Clean()
      ensures rows == map[] && tracked == map[] && nextId == 1
    {
      rows := map[];
      nextId := 1;
      tracked := map[];
      pendingAdd := None;
      pendingRemoves := {};
    }

    /**
     * `DbSet.FindAsync`: the tracked card with this id, else the row loaded
     * into a new tracked card, else nothing.
     */
    method Find(id: int) returns (r: Option<Card>)
      requires Valid()
      modifies this`tracked
      ensures Valid() && (old(Clean()) ==> Clean())
      ensures r.Some? <==> id in rows
      ensures r.Some? ==> id in tracked && r.value == tracked[id] && r.value.id == id
      ensures id in old(tracked) ==> r == Some(old(tracked[id])) && tracked == old(tracked)
      ensures id !in old(tracked) && r.Some? ==>
        fresh(r.value) && r.value.Fields() == rows[id] && tracked == old(tracked)[id := r.value]
      ensures r.None? ==> tracked == old(tracked)
    {
      if id in tracked {
        r := Some(tracked[id]);
      } else if id in rows {
        var f := rows[id];
        var card := new Card.Create(f.title, f.content, f.list);
        card.id := id;
        tracked := tracked[id := card];
        r := Some(card);
      } else {
        r := None;
      }
    }

    /** `DbSet.Add`: stage a new card for insertion. */
    method Add(card: Card)
      requires Valid()
      requires card.id == 0 && pendingAdd.None?
      modifies this`pendingAdd
      ensures Valid()
      ensures pendingAdd == Some(card)
    {
      pendingAdd := Some(card);
    }

    /** `DbSet.Remove`: stage a tracked card for deletion. */
    method Remove(card: Card)
      requires Valid()
      requires card.id in tracked && tracked[card.id] == card
      modifies this`pendingRemoves
      ensures Valid()
      ensures pendingRemoves == old(pendingRemoves) + {card.id}
    {
      pendingRemoves := pendingRemoves + {card.id};
    }

    /**
     * `SaveChangesAsync`: deletes the rows staged for removal, writes the
     * values of the changed tracked cards, inserts the staged card under the
     * next id (which it also gives the card), and reports the number of
     * affected rows: one per removal, one per changed card, one for the
     * insertion. A row that does not fit the columns rejects the whole
     * commit and nothing changes.
     */
    method SaveChanges() returns (r: CommitResult)
      requires Valid()
      modifies this, (if pendingAdd.Some? then {pendingAdd.value} else {})`id
      ensures Valid()
      ensures r.Rejected? <==> !old(CanCommit())
      ensures r.Rejected? ==>
        && rows == old(rows) && nextId == old(nextId) && tracked == old(tracked)
        && pendingAdd == old(pendingAdd) && pendingRemoves == old(pendingRemoves)
      ensures r.Committed? ==>
        && Clean()
        && r.affected == old((if pendingAdd.Some? then 1 else 0) + |pendingRemoves| + |Modified()|)
        && (old(pendingAdd).None? ==>
              && rows == old(WrittenRows()) && nextId == old(nextId)
              && tracked == old(tracked) - old(pendingRemoves))
        && (old(pendingAdd).Some? ==>
              && old(pendingAdd).value.id == old(nextId) && nextId == old(nextId) + 1
              && rows == old(WrittenRows())[old(nextId) := old(pendingAdd).value.Fields()]
              && tracked == (old(tracked) - old(pendingRemoves))[old(nextId) := old(pendingAdd).value])
    {
      var ok := && (pendingAdd.Some? ==> WithinColumnBounds(pendingAdd.value.Fields()))
                && (forall id | id in tracked && id !in pendingRemoves :: WithinColumnBounds(tracked[id].Fields()));
      if !ok {
        return Rejected;
      }
      var modified := set id | id in tracked && id !in pendingRemoves && tracked[id].Fields() != rows[id];
      var affected := (if pendingAdd.Some? then 1 else 0) + |pendingRemoves| + |modified|;
      WriteTracked();
      if pendingAdd.Some? {
        Insert();
      }
      r := Committed(affected);
    }

    /** The update and delete part of a commit. */
    method WriteTracked()
      requires Valid()
      requires forall id :: id in tracked && id !in pendingRemoves ==> WithinColumnBounds(tracked[id].Fields())
      modifies this`rows, this`tracked, this`pendingRemoves
      ensures Valid()
      ensures rows == old(WrittenRows()) && tracked == old(tracked) - old(pendingRemoves)
      ensures pendingRemoves == {}
      ensures forall id :: id in tracked ==> tracked[id].Fields() == rows[id]
    {
      rows := map id | id in rows && id !in pendingRemoves :: if id in tracked then tracked[id].Fields() else rows[id];
      tracked := tracked - pendingRemoves;
      pendingRemoves := {};
    }

    /** The insertion part of a commit: the staged card gets the next id and its row. */
    method Insert()
      requires Valid() && pendingAdd.Some? && WithinColumnBounds(pendingAdd.value.Fields())
      requires forall id :: id in tracked ==> tracked[id].Fields() == rows[id]
      modifies this`rows, this`tracked, this`nextId, this`pendingAdd, pendingAdd.value`id
      ensures Valid() && pendingAdd.None?
      ensures old(pendingAdd).value.id == old(nextId) && nextId == old(nextId) + 1
      ensures rows == old(rows)[old(nextId) := old(pendingAdd).value.Fields()]
      ensures tracked == old(tracked)[old(nextId) := old(pendingAdd).value]
      ensures forall id :: id in tracked ==> tracked[id].Fields() == rows[id]
    {
      var card := pendingAdd.value;
      assert forall id :: id in tracked ==> tracked[id] != card;
      card.id := nextId;
      rows := rows[nextId := card.Fields()];
      tracked := tracked[nextId := card];
      nextId := nextId + 1;
      pendingAdd := None;
    }
  }
}
