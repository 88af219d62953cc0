/** The to-do records of the FastAPI to-do server (main.py), the request bodies its
    endpoints accept, and the pure list computations behind its endpoints: the partial
    update of one record, the filter that deletes, and the id-keyed rebuild that reorders.
    The store class that holds the saved list lives in module Store. */
module Todos {

  datatype Option<T> = None | Some(value: T)

  /** One saved to-do record (class TodoItem). */
  datatype TodoItem = TodoItem(id: int, title: string, description: string, completed: bool)

  /** Body of PUT /todos/{id} (class UpdateTodoItem): a field is Some exactly when the
      request set it. */
  datatype UpdateTodoItem = UpdateTodoItem(title: Option<string>, description: Option<string>, completed: Option<bool>)

  /** Body of POST /todos/reorder (class ReorderRequest). */
  datatype ReorderRequest = ReorderRequest(ids: seq<int>)

  /** What an endpoint answers: a 200 body, or an HTTPException's status and detail. */
  datatype Response<T> = Ok(value: T) | Error(status: int, detail: string)

  const NotFound: int := 404
  const BadRequest: int := 400

  // ---------------------------------------------------------------------------
  // Sequences of ids

  predicate Distinct<T(==)>(xs: seq<T>) {
    forall i, j :: 0 <= i < j < |xs| ==> xs[i] != xs[j]
  }

  /** The ids of the records, in list order. */
  function Ids(s: seq<TodoItem>): seq<int> {
    seq(|s|, i requires 0 <= i < |s| => s[i].id)
  }

  /** No two saved records share an id. Nothing in the server enforces this. */
  predicate DistinctIds(s: seq<TodoItem>) {
    Distinct(Ids(s))
  }

  lemma IdsConcat(a: seq<TodoItem>, b: seq<TodoItem>)
    ensures Ids(a + b) == Ids(a) + Ids(b)
  {
  }

  lemma DistinctIdsDistinctItems(s: seq<TodoItem>)
    requires DistinctIds(s)
    ensures Distinct(s)
  {
    forall i, j | 0 <= i < j < |s| ensures s[i] != s[j] {
      assert Ids(s)[i] != Ids(s)[j];
    }
  }

  // ---------------------------------------------------------------------------
  // create_todo (main.py:48-53)

  /** Appending a record keeps the saved ids distinct exactly when its id is fresh;
      create_todo does not check this, so a repeated id is saved as given. */
  lemma {:induction false} CreateKeepsDistinctIds(s: seq<TodoItem>, t: TodoItem)
    ensures DistinctIds(s + [t]) <==> DistinctIds(s) && t.id !in Ids(s)
  {
    IdsConcat(s, [t]);
    var ids := Ids(s + [t]);
    assert ids == Ids(s) + [t.id];
    if DistinctIds(s + [t]) {
      forall i, j | 0 <= i < j < |s| ensures Ids(s)[i] != Ids(s)[j] {
        assert ids[i] != ids[j];
      }
      forall k | 0 <= k < |s| ensures Ids(s)[k] != t.id {
        assert ids[k] != ids[|s|];
      }
    }
  }

  // ---------------------------------------------------------------------------
  // update_todo (main.py:56-67)

  /** i is the position of the first record whose id is `id` (the record that
      `next(...)` finds at main.py:59). */
  predicate FirstWithId(s: seq<TodoItem>, id: int, i: int) {
    0 <= i < |s| && s[i].id == id && forall j :: 0 <= j < i ==> s[j].id != id
  }

  lemma FirstWithIdUnique(s: seq<TodoItem>, id: int, i: int, k: int)
    requires FirstWithId(s, id, i) && FirstWithId(s, id, k)
    ensures i == k
  {
  }

  /** When some record has the id, a first such record exists. */
  lemma {:induction false} FirstExists(s: seq<TodoItem>, id: int)
    requires id in Ids(s)
    ensures exists i :: FirstWithId(s, id, i)
  {
    if s[0].id == id {
      assert FirstWithId(s, id, 0);
    } else {
      var k :| 0 <= k < |s| && Ids(s)[k] == id;
      assert Ids(s[1..])[k - 1] == id;
      FirstExists(s[1..], id);
      var j :| FirstWithId(s[1..], id, j);
      assert FirstWithId(s, id, j + 1);
    }
  }

  /** The linear search of main.py:59: the index of the first record with the id,
      None when no record has it. */
  method FindFirst(s: seq<TodoItem>, id: int) returns (r: Option<nat>)
    ensures r.None? <==> id !in Ids(s)
    ensures r.Some? ==> FirstWithId(s, id, r.value)
  {
    var i := 0;
    while i < |s|
      invariant 0 <= i <= |s|
      invariant forall j :: 0 <= j < i ==> s[j].id != id
    {
      if s[i].id == id {
        assert Ids(s)[i] == id;
        return Some(i);
      }
      i := i + 1;
    }
    assert forall k :: 0 <= k < |s| ==> Ids(s)[k] != id;
    return None;
  }

  /** One field of dict.update with the request's set fields: a set field replaces the
      stored value, an unset one keeps it. */
  function Merge<T>(stored: T, requested: Option<T>): T {
    match requested
    case Some(v) => v
    case None => stored
  }

  /** The record after `todo_to_update.update(update_data)` (main.py:64-65). */
  function Patch(t: TodoItem, u: UpdateTodoItem): (r: TodoItem)
    ensures r.id == t.id
  {
    TodoItem(t.id, Merge(t.title, u.title), Merge(t.description, u.description), Merge(t.completed, u.completed))
  }

  /** The id is never touched, fields the request set take the requested value and
      fields it left unset keep the stored one. */
  lemma PatchFields(t: TodoItem, u: UpdateTodoItem)
    ensures Patch(t, u).id == t.id
    ensures u.title.Some? ==> Patch(t, u).title == u.title.value
    ensures u.title.None? ==> Patch(t, u).title == t.title
    ensures u.description.Some? ==> Patch(t, u).description == u.description.value
    ensures u.description.None? ==> Patch(t, u).description == t.description
    ensures u.completed.Some? ==> Patch(t, u).completed == u.completed.value
    ensures u.completed.None? ==> Patch(t, u).completed == t.completed
  {
  }

  /** A request that sets nothing leaves the record as it was, and sending the same
      request twice has the effect of sending it once. */
  lemma PatchIdentityAndIdempotent(t: TodoItem, u: UpdateTodoItem)
    ensures Patch(t, UpdateTodoItem(None, None, None)) == t
    ensures Patch(Patch(t, u), u) == Patch(t, u)
  {
  }

  /** Updating the record at i rewrites that position only: length, order and every
      id of the list are kept, so distinct ids stay distinct. */
  lemma UpdateKeepsIds(s: seq<TodoItem>, i: nat, u: UpdateTodoItem)
    requires i < |s|
    ensures |s[i := Patch(s[i], u)]| == |s|
    ensures Ids(s[i := Patch(s[i], u)]) == Ids(s)
    ensures forall j :: 0 <= j < |s| && j != i ==> s[i := Patch(s[i], u)][j] == s[j]
    ensures DistinctIds(s) ==> DistinctIds(s[i := Patch(s[i], u)])
  {
    assert Ids(s[i := Patch(s[i], u)]) == Ids(s);
  }

  // ---------------------------------------------------------------------------
  // delete_todo (main.py:70-80)

  /** `[todo for todo in todos if todo["id"] != todo_id]` (main.py:74). */
  function Without(s: seq<TodoItem>, id: int): (r: seq<TodoItem>)
    ensures |r| <= |s|
    ensures |r| == |s| <==> id !in Ids(s)
  {
    if s == [] then []
    else
      assert s == [s[0]] + s[1..];
      assert Ids(s) == [s[0].id] + Ids(s[1..]);
      (if s[0].id == id then [] else [s[0]]) + Without(s[1..], id)
  }

  /** The filter keeps the relative order of the records it keeps: filtering a
      concatenation is concatenating the filtered parts. */
  lemma {:induction false} WithoutConcat(a: seq<TodoItem>, b: seq<TodoItem>, id: int)
    ensures Without(a + b, id) == Without(a, id) + Without(b, id)
  {
    if a == [] {
      assert a + b == b;
    } else {
      var head := if a[0].id == id then [] else [a[0]];
      assert (a + b)[0] == a[0] && (a + b)[1..] == a[1..] + b;
      WithoutConcat(a[1..], b, id);
      calc {
        Without(a + b, id);
        head + Without(a[1..] + b, id);
        head + (Without(a[1..], id) + Without(b, id));
        (head + Without(a[1..], id)) + Without(b, id);
        Without(a, id) + Without(b, id);
      }
    }
  }

  /** Each record occurs in the filtered list as often as in the stored list, unless
      it carries the deleted id, in which case it no longer occurs. */
  lemma {:induction false} WithoutCounts(s: seq<TodoItem>, id: int)
    ensures forall t :: multiset(Without(s, id))[t] == if t.id == id then 0 else multiset(s)[t]
  {
    if s != [] {
      WithoutCounts(s[1..], id);
      assert s == [s[0]] + s[1..];
    }
  }

  /** No record with the deleted id remains; every other record remains. */
  lemma WithoutRemovesExactlyId(s: seq<TodoItem>, id: int)
    ensures id !in Ids(Without(s, id))
    ensures forall t :: t in s && t.id != id ==> t in Without(s, id)
    ensures forall t :: t in Without(s, id) ==> t in s && t.id != id
  {
    var r := Without(s, id);
    WithoutCounts(s, id);
    forall k | 0 <= k < |r| ensures Ids(r)[k] != id {
      assert r[k] in multiset(r);
    }
    forall t | t in s && t.id != id ensures t in r {
      assert t in multiset(s);
    }
    forall t | t in r ensures t in s && t.id != id {
      assert t in multiset(r);
    }
  }

  // ---------------------------------------------------------------------------
  // reorder_todos (main.py:82-94)

  /** `{todo["id"]: todo for todo in todos}` (main.py:86): later records overwrite
      earlier ones with the same id. */
  function IdMap(s: seq<TodoItem>): (m: map<int, TodoItem>)
    ensures forall k :: k in m <==> k in Ids(s)
    ensures forall k :: k in m ==> m[k].id == k && m[k] in s
  {
    if s == [] then map[]
    else
      var p := s[..|s| - 1];
      assert s == p + [s[|s| - 1]];
      IdsConcat(p, [s[|s| - 1]]);
      assert Ids([s[|s| - 1]]) == [s[|s| - 1].id];
      assert forall k :: k in Ids(s) <==> k in Ids(p) || k == s[|s| - 1].id;
      IdMap(p)[s[|s| - 1].id := s[|s| - 1]]
  }

  /** The dictionary holds, for each id, the LAST record carrying it. */
  lemma {:induction false} IdMapLastWins(s: seq<TodoItem>, i: nat)
    requires i < |s|
    requires forall j :: i < j < |s| ==> s[j].id != s[i].id
    ensures s[i].id in IdMap(s) && IdMap(s)[s[i].id] == s[i]
  {
    var p := s[..|s| - 1];
    var last := s[|s| - 1];
    assert IdMap(s) == IdMap(p)[last.id := last];
    if i < |s| - 1 {
      assert p[i] == s[i];
      forall j | i < j < |p| ensures p[j].id != p[i].id {
        assert p[j] == s[j];
      }
      IdMapLastWins(p, i);
      assert last.id != s[i].id;
    } else {
      assert s[i] == last;
    }
  }

  /** With distinct ids, every record is found under its own id. */
  lemma IdMapDistinct(s: seq<TodoItem>)
    requires DistinctIds(s)
    ensures forall i :: 0 <= i < |s| ==> s[i].id in IdMap(s) && IdMap(s)[s[i].id] == s[i]
  {
    forall i | 0 <= i < |s| ensures s[i].id in IdMap(s) && IdMap(s)[s[i].id] == s[i] {
      forall j | i < j < |s| ensures s[j].id != s[i].id {
        assert Ids(s)[i] != Ids(s)[j];
      }
      IdMapLastWins(s, i);
    }
  }

  /** `[id_to_todo_map[id] for id in request.ids if id in id_to_todo_map]`
      (main.py:87). */
  function Rebuild(m: map<int, TodoItem>, ids: seq<int>): (r: seq<TodoItem>)
    ensures |r| <= |ids|
    ensures forall t :: t in r ==> t in m.Values
  {
    if ids == [] then []
    else (if ids[0] in m then [m[ids[0]]] else []) + Rebuild(m, ids[1..])
  }

  /** The requested ids that name a key, in request order. */
  function Known(ids: seq<int>, keys: set<int>): (r: seq<int>)
    ensures |r| <= |ids|
    ensures forall x :: x in r <==> x in ids && x in keys
  {
    if ids == [] then []
    else (if ids[0] in keys then [ids[0]] else []) + Known(ids[1..], keys)
  }

  /** The rebuilt list of main.py:86-87. */
  function Reordered(s: seq<TodoItem>, ids: seq<int>): (r: seq<TodoItem>)
    ensures |r| <= |ids|
    ensures forall t :: t in r ==> t in s
  {
    Rebuild(IdMap(s), ids)
  }

  /** The set of ids the store holds. */
  function IdSet(s: seq<TodoItem>): set<int> {
    IdMap(s).Keys
  }

  lemma {:induction false} RebuildIds(m: map<int, TodoItem>, ids: seq<int>)
    requires forall k :: k in m ==> m[k].id == k
    ensures Ids(Rebuild(m, ids)) == Known(ids, m.Keys)
  {
    if ids != [] {
      RebuildIds(m, ids[1..]);
      var head := if ids[0] in m then [m[ids[0]]] else [];
      IdsConcat(head, Rebuild(m, ids[1..]));
    }
  }

  lemma {:induction false} KnownDistinct(ids: seq<int>, keys: set<int>)
    requires Distinct(ids)
    ensures Distinct(Known(ids, keys))
  {
    if ids != [] {
      var rest := ids[1..];
      assert Distinct(rest) by {
        forall i, j | 0 <= i < j < |rest| ensures rest[i] != rest[j] {
          assert ids[i + 1] != ids[j + 1];
        }
      }
      KnownDistinct(rest, keys);
      var k := Known(rest, keys);
      if ids[0] in keys {
        assert ids[0] !in rest by {
          forall j | 0 <= j < |rest| ensures rest[j] != ids[0] {
            assert ids[0] != ids[j + 1];
          }
        }
        var r := [ids[0]] + k;
        forall i, j | 0 <= i < j < |r| ensures r[i] != r[j] {
          if i == 0 {
            assert r[j] == k[j - 1];
          } else {
            assert r[i] == k[i - 1] && r[j] == k[j - 1];
          }
        }
      } else {
        assert Known(ids, keys) == k;
      }
    }
  }

  lemma {:induction false} KnownAll(ids: seq<int>, keys: set<int>)
    requires forall i :: 0 <= i < |ids| ==> ids[i] in keys
    ensures Known(ids, keys) == ids
  {
    if ids != [] {
      assert ids[0] in keys;
      assert forall i :: 0 <= i < |ids| - 1 ==> ids[1..][i] == ids[i + 1];
      KnownAll(ids[1..], keys);
      assert Known(ids, keys) == [ids[0]] + Known(ids[1..], keys);
      assert ids == [ids[0]] + ids[1..];
    }
  }

  /** The rebuilt list names exactly the requested ids that the store knows, in the
      requested order; requested ids the store does not know are skipped. Every
      rebuilt record comes from the store. */
  lemma ReorderIds(s: seq<TodoItem>, ids: seq<int>)
    ensures Ids(Reordered(s, ids)) == Known(ids, IdSet(s))
    ensures |Reordered(s, ids)| == |Known(ids, IdSet(s))|
    ensures forall t :: t in Reordered(s, ids) ==> t in s
  {
    RebuildIds(IdMap(s), ids);
    assert |Ids(Reordered(s, ids))| == |Reordered(s, ids)|;
    forall t | t in Reordered(s, ids) ensures t in s {
      assert t in IdMap(s).Values;
    }
  }

  /** When every requested id is known, the i-th rebuilt record has id ids[i]. */
  lemma ReorderAllKnown(s: seq<TodoItem>, ids: seq<int>)
    requires forall i :: 0 <= i < |ids| ==> ids[i] in Ids(s)
    ensures |Reordered(s, ids)| == |ids|
    ensures forall i :: 0 <= i < |ids| ==> Reordered(s, ids)[i].id == ids[i]
  {
    ReorderIds(s, ids);
    assert forall i :: 0 <= i < |ids| ==> ids[i] in IdSet(s);
    KnownAll(ids, IdSet(s));
    assert Ids(Reordered(s, ids)) == ids;
    forall i | 0 <= i < |ids| ensures Reordered(s, ids)[i].id == ids[i] {
      assert Ids(Reordered(s, ids))[i] == ids[i];
    }
  }

  /** Dropping the first element of a duplicate-free list. */
  lemma DistinctTail<T>(a: seq<T>)
    requires Distinct(a) && a != []
    ensures Distinct(a[1..]) && a[0] !in a[1..]
  {
    forall i, j | 0 <= i < j < |a| - 1 ensures a[1..][i] != a[1..][j] {
      assert a[i + 1] != a[j + 1];
    }
    forall j | 0 <= j < |a| - 1 ensures a[1..][j] != a[0] {
      assert a[0] != a[j + 1];
    }
  }

  /** Removing the element at k from a duplicate-free list. */
  lemma DistinctRemove<T>(b: seq<T>, k: nat)
    requires Distinct(b) && k < |b|
    ensures Distinct(b[..k] + b[k + 1..])
    ensures forall y :: y in b && y != b[k] ==> y in b[..k] + b[k + 1..]
    ensures multiset(b) == multiset(b[..k] + b[k + 1..]) + multiset{b[k]}
  {
    var b' := b[..k] + b[k + 1..];
    forall i, j | 0 <= i < j < |b'| ensures b'[i] != b'[j] {
      var i0 := if i < k then i else i + 1;
      var j0 := if j < k then j else j + 1;
      assert b'[i] == b[i0] && b'[j] == b[j0];
    }
    forall y | y in b && y != b[k] ensures y in b' {
      var m :| 0 <= m < |b| && b[m] == y;
      if m < k {
        assert b'[m] == y;
      } else {
        assert b'[m - 1] == y;
      }
    }
    assert b == b[..k] + [b[k]] + b[k + 1..];
  }

  /** Two duplicate-free lists of the same length, one drawn from the other, are
      permutations of each other. */
  lemma {:induction false} PermutationOfSubset<T>(a: seq<T>, b: seq<T>)
    requires Distinct(a) && Distinct(b)
    requires forall x :: x in a ==> x in b
    requires |a| == |b|
    ensures multiset(a) == multiset(b)
  {
    if a != [] {
      var x := a[0];
      assert x in a;
      var k :| 0 <= k < |b| && b[k] == x;
      var a' := a[1..];
      var b' := b[..k] + b[k + 1..];
      DistinctTail(a);
      DistinctRemove(b, k);
      forall y | y in a' ensures y in b' {
        assert y in a;
      }
      PermutationOfSubset(a', b');
      assert a == [x] + a';
    }
  }

  /** A finite set lies inside a larger one only if it is no bigger. */
  lemma {:induction false} SubsetCard<T>(a: set<T>, b: set<T>)
    requires a <= b
    ensures |a| <= |b|
  {
    if a != {} {
      var x :| x in a;
      SubsetCard(a - {x}, b - {x});
    }
  }

  /** A list has at most as many distinct elements as entries, and exactly as many
      when it has no repeats. */
  lemma {:induction false} ElementsCard<T>(xs: seq<T>)
    ensures |set x | x in xs| <= |xs|
    ensures |set x | x in xs| == |xs| <==> Distinct(xs)
  {
    if xs != [] {
      var h, t := xs[0], xs[1..];
      ElementsCard(t);
      assert xs == [h] + t;
      assert (set x | x in xs) == {h} + (set x | x in t);
      if h in t {
        var j :| 0 <= j < |t| && t[j] == h;
        assert xs[0] == xs[j + 1];
      } else {
        if Distinct(t) {
          forall i, j | 0 <= i < j < |xs| ensures xs[i] != xs[j] {
            if i == 0 {
              assert xs[j] == t[j - 1];
            } else {
              assert xs[i] == t[i - 1] && xs[j] == t[j - 1];
            }
          }
        }
        if Distinct(xs) {
          DistinctTail(xs);
        }
      }
    }
  }

  /** A request without repeated ids passes the length check only if the saved ids
      have no repeats either: the rebuilt list has one record per distinct known id,
      and there are no more distinct saved ids than saved records. */
  lemma ReorderPassingMeansDistinctSaved(s: seq<TodoItem>, ids: seq<int>)
    requires Distinct(ids)
    requires |Reordered(s, ids)| == |s|
    ensures DistinctIds(s)
  {
    var k := Known(ids, IdSet(s));
    ReorderIds(s, ids);
    KnownDistinct(ids, IdSet(s));
    ElementsCard(k);
    ElementsCard(Ids(s));
    assert (set x | x in k) <= (set x | x in Ids(s));
    SubsetCard(set x | x in k, set x | x in Ids(s));
  }

  /** The property main.py:90 is meant to guard: when the request repeats no id, a
      rebuilt list that passes the length check is a permutation of the saved list,
      and every saved id was among the requested ones. */
  lemma ReorderPermutation(s: seq<TodoItem>, ids: seq<int>)
    requires Distinct(ids)
    requires |Reordered(s, ids)| == |s|
    ensures multiset(Reordered(s, ids)) == multiset(s)
    ensures forall k :: k in Ids(s) ==> k in ids
  {
    var r := Reordered(s, ids);
    ReorderPassingMeansDistinctSaved(s, ids);
    ReorderIds(s, ids);
    KnownDistinct(ids, IdSet(s));
    assert DistinctIds(r);
    DistinctIdsDistinctItems(r);
    DistinctIdsDistinctItems(s);
    PermutationOfSubset(r, s);
    forall k | k in Ids(s) ensures k in ids {
      var j :| 0 <= j < |s| && Ids(s)[j] == k;
      assert s[j] in multiset(r);
      var m :| 0 <= m < |r| && r[m] == s[j];
      assert Ids(r)[m] == k;
    }
  }

  /** A request that repeats no id and leaves out a saved id is refused:
      the rebuilt list is shorter than the saved one (test_main.py:134-147). */
  lemma ReorderMissingIdFails(s: seq<TodoItem>, ids: seq<int>, missing: int)
    requires Distinct(ids)
    requires missing in Ids(s) && missing !in ids
    ensures |Reordered(s, ids)| != |s|
  {
    if |Reordered(s, ids)| == |s| {
      ReorderPermutation(s, ids);
    }
  }

  /** A request listing the saved ids in any order (as the drag-and-drop client
      sends) passes the length check and lays the records out in that order. */
  lemma ReorderOfPermutationSucceeds(s: seq<TodoItem>, ids: seq<int>)
    requires multiset(ids) == multiset(Ids(s))
    ensures |Reordered(s, ids)| == |s|
    ensures forall i :: 0 <= i < |s| ==> Reordered(s, ids)[i].id == ids[i]
  {
    forall i | 0 <= i < |ids| ensures ids[i] in Ids(s) {
      assert ids[i] in multiset(ids);
    }
    assert |ids| == |multiset(ids)| == |multiset(Ids(s))| == |s|;
    ReorderAllKnown(s, ids);
  }

  /** The length check alone lets a request with a repeated id through: against
      records 1 and 2, the request [1, 1] passes and saves record 1 twice, losing
      record 2. */
  lemma ReorderDuplicateIdLosesItem(t1: TodoItem, t2: TodoItem)
    requires t1.id == 1 && t2.id == 2
    ensures |Reordered([t1, t2], [1, 1])| == |[t1, t2]|
    ensures Reordered([t1, t2], [1, 1]) == [t1, t1]
    ensures multiset(Reordered([t1, t2], [1, 1])) != multiset([t1, t2])
  {
    var s := [t1, t2];
    IdMapLastWins(s, 0);
    IdMapLastWins(s, 1);
    assert Rebuild(IdMap(s), [1]) == [t1];
    assert multiset([t1, t1])[t2] == 0;
  }
}
