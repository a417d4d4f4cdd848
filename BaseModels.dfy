/** BaseModel of utils/models.py: every table row has an auto-increment id, an
    `available` soft-delete flag and a creation date; `select_available` filters a table. */
module BaseModels {

  /** A stored row; `fields` holds the columns the concrete model adds. */
  datatype Row<T> = Row(id: nat, available: bool, created: int, fields: T)

  /** A row as BaseModel's field defaults make it: available = True, creation_date = now. */
  function NewRow<T>(id: nat, now: int, fields: T): (r: Row<T>)
    ensures r.available && r.id == id && r.created == now && r.fields == fields
  {
    Row(id, true, now, fields)
  }

  /** `select().where(available == True)`, in table order. */
  function SelectAvailable<T>(table: seq<Row<T>>): (r: seq<Row<T>>)
    ensures forall x :: x in r ==> x in table && x.available
    ensures forall x :: x in table && x.available ==> x in r
    ensures |r| <= |table|
  {
    if table == [] then []
    else (if table[0].available then [table[0]] else []) + SelectAvailable(table[1..])
  }

  /** Selecting is compositional over a table split in two, so appending a row
      appends it (when available) to the selection. */
  lemma {:induction false} SelectAvailableAppend<T>(a: seq<Row<T>>, b: seq<Row<T>>)
    ensures SelectAvailable(a + b) == SelectAvailable(a) + SelectAvailable(b)
  {
    if a == [] {
      assert a + b == b;
    } else {
      assert (a + b)[1..] == a[1..] + b;
      SelectAvailableAppend(a[1..], b);
    }
  }

  /** Selecting twice is selecting once. */
  lemma {:induction false} SelectAvailableIdempotent<T>(table: seq<Row<T>>)
    ensures SelectAvailable(SelectAvailable(table)) == SelectAvailable(table)
  {
    if table != [] {
      var head := if table[0].available then [table[0]] else [];
      SelectAvailableAppend(head, SelectAvailable(table[1..]));
      SelectAvailableIdempotent(table[1..]);
      if table[0].available {
        assert SelectAvailable(head) == head by {
          assert head[1..] == [];
        }
      }
    }
  }

  /** A table whose rows are all available is its own selection. */
  lemma {:induction false} SelectAllAvailable<T>(table: seq<Row<T>>)
    requires forall i :: 0 <= i < |table| ==> table[i].available
    ensures SelectAvailable(table) == table
  {
    if table != [] {
      SelectAllAvailable(table[1..]);
    }
  }
}
