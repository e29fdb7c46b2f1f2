/**
 * A database table as an in-memory map from auto-increment id to row, the
 * three statements the endpoints run on it (INSERT, UPDATE ... WHERE id,
 * DELETE ... WHERE id), and the id-ordered reads (ORDER BY id DESC, and the
 * first row matching a condition for `LIMIT 1`).
 */
module Tables {
  import opened Wrappers
  import opened Http

  /** The write an endpoint decides on: none, one INSERT, one UPDATE or one DELETE. */
  datatype Effect<R> = Keep | Add(row: R) | Put(id: int, row: R) | Remove(id: int)

  /** What an endpoint answers and what it writes. */
  datatype Outcome<R> = Outcome(response: Response, effect: Effect<R>)

  function Refuse<R>(response: Response): Outcome<R>
  {
    Outcome(response, Keep)
  }

  /** Every id in use is positive and below the next auto-increment value. */
  predicate IdsBelow<R>(rows: map<int, R>, nextId: int)
  {
    1 <= nextId && forall id :: id in rows ==> 1 <= id < nextId
  }

  /** The id an effect touches (the next id for an INSERT, none for `Keep`). */
  function Target<R>(e: Effect<R>, nextId: int): Option<int>
  {
    match e
    case Keep => None
    case Add(_) => Some(nextId)
    case Put(id, _) => Some(id)
    case Remove(id) => Some(id)
  }

  /**
   * The table after the effect. UPDATE and DELETE of an id that has no row
   * change nothing; every id other than the touched one keeps its row.
   */
  function Applied<R>(rows: map<int, R>, nextId: int, e: Effect<R>): (r: map<int, R>)
    ensures forall id :: Target(e, nextId) != Some(id) ==> (id in r <==> id in rows)
    ensures forall id :: Target(e, nextId) != Some(id) && id in r ==> r[id] == rows[id]
    ensures e.Add? ==> nextId in r && r[nextId] == e.row
    ensures e.Put? ==> (e.id in r <==> e.id in rows) && (e.id in r ==> r[e.id] == e.row)
    ensures e.Remove? ==> e.id !in r
  {
    match e
    case Keep => rows
    case Add(row) => rows[nextId := row]
    case Put(id, row) => if id in rows then rows[id := row] else rows
    case Remove(id) => rows - {id}
  }

  function NextId<R>(nextId: int, e: Effect<R>): int
  {
    if e.Add? then nextId + 1 else nextId
  }

  /** An INSERT adds exactly one row, under a fresh id, and every effect keeps the ids well-formed. */
  lemma AppliedKeepsIds<R>(rows: map<int, R>, nextId: int, e: Effect<R>)
    requires IdsBelow(rows, nextId)
    ensures IdsBelow(Applied(rows, nextId, e), NextId(nextId, e))
    ensures e.Add? ==> nextId !in rows && |Applied(rows, nextId, e)| == |rows| + 1
  {
    if e.Add? {
      assert nextId !in rows;
      assert Applied(rows, nextId, e).Keys == rows.Keys + {nextId};
    }
  }

  /** A table: its rows by id and the next auto-increment value. */
  class Table<R> {
    var rows: map<int, R>
    var nextId: int

    ghost predicate Valid()
      reads this
    {
      IdsBelow(rows, nextId)
    }

    /** An empty table. */
    constructor ()
      ensures Valid() && rows == map[] && nextId == 1
    {
      rows := map[];
      nextId := 1;
    }

    /** INSERT: the row gets the next id. */
    method Insert(row: R) returns (id: int)
      requires Valid()
      modifies this
      ensures Valid()
      ensures id == old(nextId) && id !in old(rows)
      ensures rows == old(rows)[id := row] && nextId == old(nextId) + 1
    {
      id := nextId;
      rows := rows[id := row];
      nextId := nextId + 1;
    }

    /** UPDATE ... WHERE id: replaces the row when there is one. */
    method Update(id: int, row: R)
      requires Valid()
      modifies this`rows
      ensures Valid()
      ensures rows == if id in old(rows) then old(rows)[id := row] else old(rows)
    {
      if id in rows {
        rows := rows[id := row];
      }
    }

    /** DELETE ... WHERE id. */
    method Delete(id: int)
      requires Valid()
      modifies this`rows
      ensures Valid()
      ensures rows == old(rows) - {id}
    {
      rows := rows - {id};
    }

    /** Runs the statement an endpoint decided on. */
    method Commit(e: Effect<R>)
      requires Valid()
      modifies this
      ensures Valid()
      ensures rows == Applied(old(rows), old(nextId), e) && nextId == NextId(old(nextId), e)
    {
      match e {
        case Keep =>
        case Add(row) =>
          var _ := Insert(row);
        case Put(id, row) =>
          Update(id, row);
        case Remove(id) =>
          Delete(id);
      }
    }
  }

  /** The ids of `rows` from `n` down to 1, largest first. */
  function IdsFrom<R>(rows: map<int, R>, n: int): seq<int>
    decreases n
  {
    if n < 1 then []
    else if n in rows then [n] + IdsFrom(rows, n - 1)
    else IdsFrom(rows, n - 1)
  }

  predicate StrictlyDescending(ids: seq<int>)
  {
    forall i, j :: 0 <= i < j < |ids| ==> ids[i] > ids[j]
  }

  /** IdsFrom lists exactly the ids of `rows` in 1 .. n, each once, in descending order. */
  lemma {:induction false} IdsFromSpec<R>(rows: map<int, R>, n: int)
    decreases n
    ensures forall id :: id in IdsFrom(rows, n) <==> id in rows && 1 <= id <= n
    ensures StrictlyDescending(IdsFrom(rows, n))
  {
    if n >= 1 {
      IdsFromSpec(rows, n - 1);
      var rest := IdsFrom(rows, n - 1);
      if n in rows {
        var ids := [n] + rest;
        forall i, j | 0 <= i < j < |ids| ensures ids[i] > ids[j] {
          assert ids[j] == rest[j - 1] && ids[j] in rest;
          if i > 0 {
            assert ids[i] == rest[i - 1];
          }
        }
      }
    }
  }

  /** `ORDER BY id DESC`: every id of the table exactly once, largest first. */
  function IdsDescending<R>(rows: map<int, R>, nextId: int): (ids: seq<int>)
    requires IdsBelow(rows, nextId)
    ensures forall id :: id in rows <==> id in ids
    ensures StrictlyDescending(ids)
  {
    IdsFromSpec(rows, nextId - 1);
    IdsFrom(rows, nextId - 1)
  }

  /** The position of `x` in `s`. */
  function IndexOf(s: seq<int>, x: int): (i: nat)
    requires x in s
    ensures i < |s| && s[i] == x
  {
    if s[0] == x then 0 else 1 + IndexOf(s[1..], x)
  }

  /**
   * The smallest id in `lo .. hi - 1` whose row satisfies `p`: the row a
   * `SELECT ... WHERE ... LIMIT 1` without ORDER BY is taken to return.
   */
  function FirstMatch<R>(rows: map<int, R>, p: R -> bool, lo: int, hi: int): (r: Option<int>)
    decreases hi - lo
    ensures r.Some? ==> lo <= r.value < hi && r.value in rows && p(rows[r.value])
    ensures r.Some? ==> forall id :: lo <= id < r.value && id in rows ==> !p(rows[id])
    ensures r.None? ==> forall id :: lo <= id < hi && id in rows ==> !p(rows[id])
  {
    if hi <= lo then None
    else if lo in rows && p(rows[lo]) then Some(lo)
    else FirstMatch(rows, p, lo + 1, hi)
  }

  /** Over a well-formed table, the first match exists exactly when some row matches. */
  lemma FirstMatchFinds<R>(rows: map<int, R>, nextId: int, p: R -> bool)
    requires IdsBelow(rows, nextId)
    ensures FirstMatch(rows, p, 1, nextId).None? <==> forall id :: id in rows ==> !p(rows[id])
  {
  }
}
