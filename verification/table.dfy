/** The customer table: a selection of customer ids driven by the row checkboxes and the
    select-all checkbox, and the values derived from it. */
module CustomerTable {
  import opened Base

  datatype Customer = Customer(id: int, name: string, email: string, phone: Option<string>, createdAt: Option<string>)

  const DateWidth := 10

  function Ids(customers: seq<Customer>): (ids: seq<int>)
    ensures |ids| == |customers|
    ensures forall i :: 0 <= i < |ids| ==> ids[i] == customers[i].id
  {
    seq(|customers|, i requires 0 <= i < |customers| => customers[i].id)
  }

  /** `hasSelection`. */
  predicate HasSelection(selection: seq<int>)
  {
    |selection| > 0
  }

  /** `indeterminate`: the header checkbox shows a partial selection. */
  predicate Indeterminate(selection: seq<int>, customers: seq<Customer>)
  {
    HasSelection(selection) && |selection| < |customers|
  }

  /** A row is marked selected. */
  predicate RowSelected(selection: seq<int>, id: int)
  {
    id in selection
  }

  /** A row checkbox reporting `checked`: the id is appended, or every copy of it is dropped.
      The source appends to the updater's `prev` but filters the `selection` of the last
      render; both are `selection` here, which holds when every click is rendered before
      the next one. */
  function CheckRow(selection: seq<int>, id: int, checked: bool): (r: seq<int>)
    ensures checked ==> |r| == |selection| + 1 && r[..|selection|] == selection && r[|selection|] == id
    ensures !checked ==> forall x :: x in r <==> x in selection && x != id
    ensures !checked ==> SubsequenceOf(r, selection)
  {
    if checked then selection + [id]
    else
      FilterIsSubsequence(selection, (x: int) => x != id);
      Filter(selection, (x: int) => x != id)
  }

  /** A click on a row checkbox: it reports the opposite of the row's current mark. */
  function ToggleRow(selection: seq<int>, id: int): seq<int>
  {
    CheckRow(selection, id, !RowSelected(selection, id))
  }

  /** The select-all checkbox reporting `checked`. */
  function SelectAll(customers: seq<Customer>, checked: bool): (r: seq<int>)
    ensures checked ==> r == Ids(customers)
    ensures !checked ==> r == []
  {
    if checked then Ids(customers) else []
  }

  /** The action bar is open exactly when something is selected. */
  function ActionBarOpen(selection: seq<int>): (open: bool)
    ensures open <==> |selection| > 0
  {
    HasSelection(selection)
  }

  /** "Go to Detail" is offered for at most one selected row. */
  function ShowsDetail(selection: seq<int>): (shown: bool)
    ensures shown <==> |selection| <= 1
  {
    |selection| <= 1
  }

  /** `created_at?.slice(0, 10)`. */
  function DateCell(createdAt: Option<string>): (cell: Option<string>)
    ensures cell.Some? <==> createdAt.Some?
    ensures cell.Some? ==> |cell.value| == (if |createdAt.value| < DateWidth then |createdAt.value| else DateWidth)
    ensures cell.Some? ==> cell.value <= createdAt.value
  {
    match createdAt
    case None => None
    case Some(s) => Some(if |s| < DateWidth then s else s[..DateWidth])
  }

  /** The table's selection invariant: no id twice, and only ids of listed customers. */
  predicate WellFormed(selection: seq<int>, customers: seq<Customer>)
  {
    Distinct(selection) && forall x :: x in selection ==> x in Ids(customers)
  }

  /** Every listed customer's id is in `Ids`. */
  lemma IdListed(customers: seq<Customer>, c: Customer)
    requires c in customers
    ensures c.id in Ids(customers)
  {
    var k :| 0 <= k < |customers| && customers[k] == c;
    assert Ids(customers)[k] == c.id;
  }

  /** With a well-formed selection the action bar is open exactly when some listed
      customer's row is marked selected. */
  lemma {:induction false} ActionBarMeansRowSelected(selection: seq<int>, customers: seq<Customer>)
    requires WellFormed(selection, customers)
    ensures ActionBarOpen(selection) <==> exists c :: c in customers && RowSelected(selection, c.id)
  {
    if |selection| > 0 {
      assert selection[0] in selection;
      var k :| 0 <= k < |Ids(customers)| && Ids(customers)[k] == selection[0];
      assert customers[k] in customers && RowSelected(selection, customers[k].id);
    }
  }

  /** With a well-formed selection "Go to Detail" is offered exactly when the marked rows
      carry at most one customer id between them. */
  lemma {:induction false} DetailMeansOneSelectedId(selection: seq<int>, customers: seq<Customer>)
    requires WellFormed(selection, customers)
    ensures ShowsDetail(selection) <==>
      forall c, d :: c in customers && d in customers && RowSelected(selection, c.id) && RowSelected(selection, d.id)
        ==> c.id == d.id
  {
    if |selection| >= 2 {
      assert selection[0] != selection[1];
      assert selection[0] in Ids(customers) && selection[1] in Ids(customers);
      var i :| 0 <= i < |Ids(customers)| && Ids(customers)[i] == selection[0];
      var j :| 0 <= j < |Ids(customers)| && Ids(customers)[j] == selection[1];
      assert customers[i] in customers && customers[j] in customers;
      assert RowSelected(selection, customers[i].id) && RowSelected(selection, customers[j].id);
    } else {
      forall c, d | c in customers && d in customers && RowSelected(selection, c.id) && RowSelected(selection, d.id)
        ensures c.id == d.id
      {
        assert c.id == selection[0] && d.id == selection[0];
      }
    }
  }

  /** The select-all checkbox marks every row when it reports checked and no row otherwise;
      either way the header checkbox is not left partial. */
  lemma {:induction false} SelectAllMarksEveryRow(customers: seq<Customer>, checked: bool)
    ensures forall c :: c in customers ==> (RowSelected(SelectAll(customers, checked), c.id) <==> checked)
    ensures !Indeterminate(SelectAll(customers, checked), customers)
    ensures ActionBarOpen(SelectAll(customers, checked)) <==> checked && |customers| > 0
  {
    forall c | c in customers ensures RowSelected(SelectAll(customers, checked), c.id) <==> checked {
      IdListed(customers, c);
    }
  }

  lemma {:induction false} DistinctCardinality(s: seq<int>)
    requires Distinct(s)
    ensures |set x | x in s| == |s|
    decreases s
  {
    if s != [] {
      assert Distinct(s[1..]) by {
        forall i, j | 0 <= i < j < |s[1..]| ensures s[1..][i] != s[1..][j] {
          assert s[1..][i] == s[i + 1] && s[1..][j] == s[j + 1];
        }
      }
      DistinctCardinality(s[1..]);
      assert (set x | x in s) == {s[0]} + (set x | x in s[1..]);
      assert s[0] !in (set x | x in s[1..]) by {
        forall k | 0 <= k < |s[1..]| ensures s[1..][k] != s[0] {
          assert s[1..][k] == s[k + 1];
        }
      }
    }
  }

  /** With distinct customer ids and a well-formed selection, the header checkbox is
      partial exactly when something, but not everything, is selected. */
  lemma {:induction false} IndeterminateMeansPartial(selection: seq<int>, customers: seq<Customer>)
    requires Distinct(Ids(customers)) && WellFormed(selection, customers)
    ensures Indeterminate(selection, customers) <==>
      HasSelection(selection) && exists c :: c in customers && !RowSelected(selection, c.id)
  {
    var chosen := set x | x in selection;
    var all := set x | x in Ids(customers);
    DistinctCardinality(selection);
    DistinctCardinality(Ids(customers));
    assert chosen <= all by {
      forall x | x in chosen ensures x in all { assert x in selection; }
    }
    if exists c :: c in customers && !RowSelected(selection, c.id) {
      var c :| c in customers && !RowSelected(selection, c.id);
      var k :| 0 <= k < |customers| && customers[k] == c;
      assert Ids(customers)[k] == c.id;
      assert c.id in all - chosen;
      assert |all| == |chosen| + |all - chosen| by {
        assert all == chosen + (all - chosen);
      }
    } else {
      forall x | x in all ensures x in chosen {
        var k :| 0 <= k < |Ids(customers)| && Ids(customers)[k] == x;
        assert customers[k] in customers;
      }
      assert all == chosen;
    }
  }

  /** Clicking rows and the select-all checkbox keeps the selection well-formed. */
  lemma {:induction false} TogglingKeepsWellFormed(selection: seq<int>, customers: seq<Customer>, row: nat, all: bool)
    requires Distinct(Ids(customers)) && WellFormed(selection, customers) && row < |customers|
    ensures WellFormed(ToggleRow(selection, customers[row].id), customers)
    ensures WellFormed(SelectAll(customers, all), customers)
  {
    var id := customers[row].id;
    assert id in Ids(customers) by { assert Ids(customers)[row] == id; }
    if !RowSelected(selection, id) {
      var r := selection + [id];
      forall i, j | 0 <= i < j < |r| ensures r[i] != r[j] {
        if j == |selection| { assert r[i] in selection; }
      }
    } else {
      FilterKeepsDistinctBy(selection, (x: int) => x != id, (x: int) => x);
      var r := Filter(selection, (x: int) => x != id);
      assert DistinctBy(selection, (x: int) => x);
    }
  }

  /** Checking a row and then unchecking it restores a selection that did not hold it. */
  lemma {:induction false} CheckThenUncheck(selection: seq<int>, id: int)
    requires id !in selection
    ensures CheckRow(CheckRow(selection, id, true), id, false) == selection
  {
    FilterKeepsAll(selection, (x: int) => x != id);
    FilterAppendDropped(selection, id);
  }

  lemma {:induction false} FilterAppendDropped(s: seq<int>, id: int)
    ensures Filter(s + [id], (x: int) => x != id) == Filter(s, (x: int) => x != id)
    decreases s
  {
    if s == [] {
      assert Filter([id], (x: int) => x != id) == [];
    } else {
      assert (s + [id])[1..] == s[1..] + [id];
      FilterAppendDropped(s[1..], id);
    }
  }
}
