/**
  The transactions table of the pennywise database and the five handlers
  over it: add, list, balance, del and update. Amounts are integer cents.
 */
module Ledger {
  import opened Outcomes
  import opened Calendar

  type Id = nat

  /** One stored transaction; `cents` is the amount in minor units. */
  datatype Txn = Txn(description: string, cents: int, category: string, timestamp: Instant)

  /** A transaction together with its id, as the handlers return it. */
  datatype Row = Row(id: Id, txn: Txn)

  /** The table, and the next value of its id sequence. */
  datatype Table = Table(rows: map<Id, Txn>, nextId: Id)

  const StatusDeleted: string := "deleted"
  const TransactionNotFound: string := "Transaction not found"

  /** Every stored id was handed out by the id sequence, so the sequence's next value is fresh. */
  predicate Valid(t: Table)
  {
    forall id :: id in t.rows ==> id < t.nextId
  }

  /** A fresh table; the id sequence starts at 1. */
  function EmptyTable(): (t: Table)
    ensures Valid(t) && t.rows == map[]
  {
    Table(map[], 1)
  }

  // ---------------------------------------------------------------- add

  /**
    Inserts one transaction. Without a timestamp the column default, the
    insertion time `now`, is stored.
   */
  function Add(t: Table, description: string, cents: int, category: string,
               timestamp: Option<Instant>, now: Instant): (r: Step<Table, Row>)
    requires Valid(t)
    ensures Valid(r.state)
    ensures r.reply.id !in t.rows
    ensures r.state.rows.Keys == t.rows.Keys + {r.reply.id}
    ensures r.state.rows[r.reply.id] == r.reply.txn
    ensures forall id :: id in t.rows ==> r.state.rows[id] == t.rows[id]
    ensures r.reply.txn.description == description
    ensures r.reply.txn.cents == cents
    ensures r.reply.txn.category == category
    ensures timestamp.None? ==> r.reply.txn.timestamp == now
    ensures timestamp.Some? ==> r.reply.txn.timestamp == timestamp.value
  {
    var stamp := if timestamp.Some? then timestamp.value else now;
    var txn := Txn(description, cents, category, stamp);
    var id := t.nextId;
    Step(Table(t.rows[id := txn], t.nextId + 1), Row(id, txn))
  }

  // ---------------------------------------------------------------- list

  /** `rows` lists the map exactly once per id, each row with its stored transaction. */
  ghost predicate Enumerates(rows: seq<Row>, m: map<Id, Txn>)
  {
    && (forall i :: 0 <= i < |rows| ==> rows[i].id in m && m[rows[i].id] == rows[i].txn)
    && (forall i, j :: 0 <= i < j < |rows| ==> rows[i].id != rows[j].id)
    && (forall id :: id in m ==> exists i :: 0 <= i < |rows| && rows[i].id == id)
  }

  /** Rows ordered by timestamp, latest first (`ORDER BY timestamp DESC`). */
  ghost predicate NewestFirst(rows: seq<Row>)
  {
    forall i, j :: 0 <= i < j < |rows| ==> rows[j].txn.timestamp <= rows[i].txn.timestamp
  }

  /** `id` carries the latest timestamp among `ids`. */
  predicate Latest(m: map<Id, Txn>, ids: set<Id>, id: Id)
    requires ids <= m.Keys
  {
    id in ids && forall k :: k in ids ==> m[k].timestamp <= m[id].timestamp
  }

  /** Some id of `ids` carries a timestamp no earlier than any other id of `ids`. */
  lemma {:induction false} LatestExists(m: map<Id, Txn>, ids: set<Id>)
    requires ids != {} && ids <= m.Keys
    ensures exists id :: Latest(m, ids, id)
  {
    var x :| x in ids;
    if ids != {x} {
      var rest := ids - {x};
      LatestExists(m, rest);
      var y :| Latest(m, rest, y);
      if m[x].timestamp <= m[y].timestamp {
        assert Latest(m, ids, y);
      } else {
        assert Latest(m, ids, x);
      }
    } else {
      assert Latest(m, ids, x);
    }
  }

  /**
    Selection so far: `rows` lists, latest first, exactly the ids of `m` that
    are not in `left`, and nothing left is later than anything listed.
   */
  ghost predicate ListedSoFar(rows: seq<Row>, m: map<Id, Txn>, left: set<Id>)
  {
    && left <= m.Keys
    && |rows| + |left| == |m|
    && (forall i :: 0 <= i < |rows| ==> rows[i].id in m && rows[i].id !in left && m[rows[i].id] == rows[i].txn)
    && (forall i, j :: 0 <= i < j < |rows| ==> rows[i].id != rows[j].id)
    && (forall id :: id in m && id !in left ==> exists i :: 0 <= i < |rows| && rows[i].id == id)
    && NewestFirst(rows)
    && (forall i, id :: 0 <= i < |rows| && id in left ==> m[id].timestamp <= rows[i].txn.timestamp)
  }

  lemma ListStep(rows: seq<Row>, m: map<Id, Txn>, left: set<Id>, id: Id)
    requires ListedSoFar(rows, m, left)
    requires Latest(m, left, id)
    ensures ListedSoFar(rows + [Row(id, m[id])], m, left - {id})
  {
    var next := rows + [Row(id, m[id])];
    forall k | k in m && k !in left - {id}
      ensures exists i :: 0 <= i < |next| && next[i].id == k
    {
      if k == id {
        assert next[|next| - 1].id == k;
      } else {
        var i :| 0 <= i < |rows| && rows[i].id == k;
        assert next[i].id == k;
      }
    }
  }

  lemma ListDone(rows: seq<Row>, m: map<Id, Txn>)
    requires ListedSoFar(rows, m, {})
    ensures Enumerates(rows, m) && NewestFirst(rows) && |rows| == |m|
  {
  }

  /**
    Every stored transaction, latest first. Rows with equal timestamps come
    out in an unspecified order, as they do from the database.
   */
  method List(t: Table) returns (rows: seq<Row>)
    ensures Enumerates(rows, t.rows)
    ensures NewestFirst(rows)
    ensures |rows| == |t.rows|
  {
    rows := [];
    var left := t.rows.Keys;
    while left != {}
      invariant ListedSoFar(rows, t.rows, left)
      decreases |left|
    {
      LatestExists(t.rows, left);
      var id :| Latest(t.rows, left, id);
      ListStep(rows, t.rows, left, id);
      rows := rows + [Row(id, t.rows[id])];
      left := left - {id};
    }
    ListDone(rows, t.rows);
  }

  // ---------------------------------------------------------------- balance

  /** No id of `ids` is below `k`. */
  predicate LowerBound(k: Id, ids: set<Id>)
  {
    forall j :: j in ids ==> k <= j
  }

  lemma {:induction false} MinExists(ids: set<Id>)
    requires ids != {}
    ensures exists k :: k in ids && LowerBound(k, ids)
  {
    var x :| x in ids;
    if ids == {x} {
      assert LowerBound(x, ids);
    } else {
      var rest := ids - {x};
      MinExists(rest);
      var y :| y in rest && LowerBound(y, rest);
      var least := if x <= y then x else y;
      forall j | j in ids
        ensures least <= j
      {
        if j != x {
          assert j in rest;
        }
      }
      assert LowerBound(least, ids);
    }
  }

  /** The smallest stored id; it fixes the order in which `Total` adds up the rows. */
  function MinKey(m: map<Id, Txn>): (k: Id)
    requires m != map[]
    ensures k in m && forall j :: j in m ==> k <= j
  {
    MinExists(m.Keys);
    var k :| k in m && LowerBound(k, m.Keys);
    k
  }

  /** The sum of the cents of every row of `m` (`SUM(amount)`), 0 for no rows. */
  function Total(m: map<Id, Txn>): (total: int)
    ensures m == map[] ==> total == 0
    ensures (forall id :: id in m ==> 0 <= m[id].cents) ==> 0 <= total
    ensures (forall id :: id in m ==> m[id].cents <= 0) ==> total <= 0
    decreases |m|
  {
    if m == map[] then 0
    else
      var k := MinKey(m);
      assert (m - {k}).Keys == m.Keys - {k};
      m[k].cents + Total(m - {k})
  }

  /** `Total` does not depend on the order of summation: any row can be taken out first. */
  lemma {:induction false} TotalRemove(m: map<Id, Txn>, k: Id)
    requires k in m
    ensures Total(m) == m[k].cents + Total(m - {k})
    decreases |m|
  {
    var j := MinKey(m);
    if j != k {
      var mj := m - {j};
      var mk := m - {k};
      assert mj.Keys == m.Keys - {j};
      TotalRemove(mj, k);
      assert mj - {k} == mk - {j};
      assert MinKey(mk) == j by {
        var j' := MinKey(mk);
        assert j in mk;
        assert j' <= j;
        assert j <= j';
      }
    }
  }

  /** Inserting a fresh id adds its cents to the total. */
  lemma TotalInsert(m: map<Id, Txn>, id: Id, txn: Txn)
    requires id !in m
    ensures Total(m[id := txn]) == Total(m) + txn.cents
  {
    TotalRemove(m[id := txn], id);
    assert m[id := txn] - {id} == m;
  }

  /** Replacing the transaction under a stored id changes the total by the difference. */
  lemma TotalReplace(m: map<Id, Txn>, id: Id, txn: Txn)
    requires id in m
    ensures Total(m[id := txn]) == Total(m) - m[id].cents + txn.cents
  {
    TotalRemove(m[id := txn], id);
    TotalRemove(m, id);
    assert m[id := txn] - {id} == m - {id};
  }

  /** The total balance in cents; an empty table (a NULL sum) gives 0. */
  function Balance(t: Table): (cents: int)
    ensures t.rows == map[] ==> cents == 0
  {
    if t.rows == map[] then 0 else Total(t.rows)
  }

  /** The balance is the sum of the amounts `List` returns, whatever their order. */
  lemma BalanceIsSumOfListing(t: Table, rows: seq<Row>)
    requires Enumerates(rows, t.rows)
    ensures Balance(t) == SumCents(rows)
  {
    ListingSum(rows, t.rows);
  }

  /** The sum of the cents of a sequence of rows. */
  function SumCents(rows: seq<Row>): (sum: int)
  {
    if rows == [] then 0 else rows[0].txn.cents + SumCents(rows[1..])
  }

  lemma {:induction false} ListingSum(rows: seq<Row>, m: map<Id, Txn>)
    requires Enumerates(rows, m)
    ensures Total(m) == SumCents(rows)
    decreases |rows|
  {
    if rows == [] {
      assert m == map[] by {
        assert forall id :: id !in m;
      }
    } else {
      var id := rows[0].id;
      var rest := m - {id};
      assert Enumerates(rows[1..], rest) by {
        forall k | k in rest
          ensures exists i :: 0 <= i < |rows[1..]| && rows[1..][i].id == k
        {
          var i :| 0 <= i < |rows| && rows[i].id == k;
          assert i != 0;
          assert rows[1..][i - 1].id == k;
        }
        forall i | 0 <= i < |rows[1..]|
          ensures rows[1..][i].id in rest
        {
          assert rows[1..][i] == rows[i + 1];
          assert rows[0].id != rows[i + 1].id;
        }
      }
      ListingSum(rows[1..], rest);
      TotalRemove(m, id);
    }
  }

  lemma BalanceAfterAdd(t: Table, description: string, cents: int, category: string,
                        timestamp: Option<Instant>, now: Instant)
    requires Valid(t)
    ensures Balance(Add(t, description, cents, category, timestamp, now).state) == Balance(t) + cents
  {
    var r := Add(t, description, cents, category, timestamp, now);
    TotalInsert(t.rows, r.reply.id, r.reply.txn);
  }

  // ---------------------------------------------------------------- del

  /** Deletes by id; an absent id is not an error and the answer is always "deleted". */
  function Del(t: Table, id: Id): (r: Step<Table, string>)
    ensures r.reply == StatusDeleted
    ensures r.state.nextId == t.nextId
    ensures r.state.rows.Keys == t.rows.Keys - {id}
    ensures forall k :: k in r.state.rows ==> r.state.rows[k] == t.rows[k]
    ensures id !in t.rows ==> r.state == t
    ensures Valid(t) ==> Valid(r.state)
  {
    Step(Table(t.rows - {id}, t.nextId), StatusDeleted)
  }

  /** Deleting twice is deleting once. */
  lemma DelIdempotent(t: Table, id: Id)
    ensures Del(Del(t, id).state, id) == Del(t, id)
  {
  }

  /** Deleting a row just added gives back the table's rows as they were. */
  lemma DelUndoesAdd(t: Table, description: string, cents: int, category: string,
                     timestamp: Option<Instant>, now: Instant)
    requires Valid(t)
    ensures var a := Add(t, description, cents, category, timestamp, now);
            Del(a.state, a.reply.id).state.rows == t.rows
  {
    var a := Add(t, description, cents, category, timestamp, now);
    assert Del(a.state, a.reply.id).state.rows.Keys == t.rows.Keys;
  }

  lemma BalanceAfterDel(t: Table, id: Id)
    ensures Balance(Del(t, id).state) == Balance(t) - (if id in t.rows then t.rows[id].cents else 0)
  {
    if id in t.rows {
      TotalRemove(t.rows, id);
    }
  }

  // ---------------------------------------------------------------- update

  /** The optional fields of an update request; `cents` is the amount already in cents. */
  datatype Patch = Patch(description: Option<string>, cents: Option<int>,
                         category: Option<string>, timestamp: Option<Instant>)

  /**
    The amount replaces the stored one only when it is truthy
    (`params.amount ? ... : current.amount`), so 0 counts as not given.
   */
  predicate AmountGiven(p: Patch)
  {
    p.cents.Some? && p.cents.value != 0
  }

  /**
    Provided fields over the stored ones: the text fields and the timestamp
    use `??`, so any provided value (the empty string too) replaces; the
    amount uses a truthiness test.
   */
  function Merge(current: Txn, p: Patch): (merged: Txn)
    ensures p.description.Some? ==> merged.description == p.description.value
    ensures p.description.None? ==> merged.description == current.description
    ensures AmountGiven(p) ==> merged.cents == p.cents.value
    ensures !AmountGiven(p) ==> merged.cents == current.cents
    ensures p.category.Some? ==> merged.category == p.category.value
    ensures p.category.None? ==> merged.category == current.category
    ensures p.timestamp.Some? ==> merged.timestamp == p.timestamp.value
    ensures p.timestamp.None? ==> merged.timestamp == current.timestamp
  {
    Txn(
      if p.description.Some? then p.description.value else current.description,
      if AmountGiven(p) then p.cents.value else current.cents,
      if p.category.Some? then p.category.value else current.category,
      if p.timestamp.Some? then p.timestamp.value else current.timestamp)
  }

  /** Updates one row by id; an absent id fails and leaves the table as it was. */
  function Update(t: Table, id: Id, p: Patch): (r: Step<Table, Result<Row>>)
    ensures id !in t.rows ==> r.reply == Err(TransactionNotFound) && r.state == t
    ensures id in t.rows ==> r.reply.Ok? && r.reply.value.id == id
    ensures id in t.rows ==> r.reply.value.txn == Merge(t.rows[id], p)
    ensures r.state.nextId == t.nextId
    ensures r.state.rows.Keys == t.rows.Keys
    ensures id in t.rows ==> r.state.rows[id] == r.reply.value.txn
    ensures forall k :: k in t.rows && k != id ==> r.state.rows[k] == t.rows[k]
    ensures Valid(t) ==> Valid(r.state)
  {
    if id !in t.rows then Step(t, Err(TransactionNotFound))
    else
      var merged := Merge(t.rows[id], p);
      Step(Table(t.rows[id := merged], t.nextId), Ok(Row(id, merged)))
  }

  /** An amount of 0 behaves exactly like an omitted amount. */
  lemma UpdateZeroAmountIsOmitted(t: Table, id: Id, p: Patch)
    ensures Update(t, id, p.(cents := Some(0))) == Update(t, id, p.(cents := None))
  {
  }

  /** A patch that provides nothing rewrites the row with its own values. */
  lemma UpdateEmptyPatchKeepsTable(t: Table, id: Id)
    ensures Update(t, id, Patch(None, None, None, None)).state == t
  {
    if id in t.rows {
      assert t.rows[id := t.rows[id]] == t.rows;
    }
  }

  /** Applying the same patch twice is applying it once. */
  lemma UpdateIdempotent(t: Table, id: Id, p: Patch)
    ensures Update(Update(t, id, p).state, id, p) == Update(t, id, p)
  {
    if id in t.rows {
      var once := Update(t, id, p).state;
      assert once.rows[id := Merge(once.rows[id], p)] == once.rows;
    }
  }

  lemma BalanceAfterUpdate(t: Table, id: Id, p: Patch)
    requires id in t.rows
    ensures Balance(Update(t, id, p).state)
         == Balance(t) - t.rows[id].cents + Merge(t.rows[id], p).cents
  {
    TotalReplace(t.rows, id, Merge(t.rows[id], p));
  }
}
