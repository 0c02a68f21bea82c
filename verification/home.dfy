/** The home page's customer filter: a name search, case-insensitive, and an optional
    exact status. */
module Home {
  import opened Base

  datatype Row = Row(name: string, email: string, status: string)

  /** `toLowerCase` on one character; only the letters A–Z are mapped. */
  function LowerChar(c: char): char
  {
    if 'A' <= c <= 'Z' then (c as int + 32) as char else c
  }

  function Lower(s: string): (r: string)
    ensures |r| == |s|
    ensures forall i :: 0 <= i < |s| ==> r[i] == LowerChar(s[i])
  {
    seq(|s|, i requires 0 <= i < |s| => LowerChar(s[i]))
  }

  /** Lower-casing leaves no capital A–Z behind and changes no other character, so
      applying it twice is the same as applying it once. */
  lemma LowerNormalises(s: string)
    ensures forall i :: 0 <= i < |s| ==> !('A' <= Lower(s)[i] <= 'Z')
    ensures forall i :: 0 <= i < |s| && !('A' <= s[i] <= 'Z') ==> Lower(s)[i] == s[i]
    ensures Lower(Lower(s)) == Lower(s)
  {
  }

  /** `needle` occurs in `hay` starting at position `i`. */
  predicate OccursAt(hay: string, needle: string, i: nat)
  {
    i + |needle| <= |hay| && hay[i..i + |needle|] == needle
  }

  /** `hay.includes(needle)`. */
  predicate Includes(hay: string, needle: string)
  {
    exists i: nat :: i <= |hay| && OccursAt(hay, needle, i)
  }

  /** The predicate handed to `filter`; an empty status means "any status". */
  predicate Matches(c: Row, filterText: string, status: string)
  {
    Includes(Lower(c.name), Lower(filterText)) && (status == "" || c.status == status)
  }

  /** `filteredCustomers`. */
  function FilteredCustomers(customers: seq<Row>, filterText: string, status: string): seq<Row>
  {
    Filter(customers, (c: Row) => Matches(c, filterText, status))
  }

  /** The result lists some of the customers, in their original order. */
  lemma KeepsOrder(customers: seq<Row>, filterText: string, status: string)
    ensures SubsequenceOf(FilteredCustomers(customers, filterText, status), customers)
  {
    FilterIsSubsequence(customers, (c: Row) => Matches(c, filterText, status));
  }

  /** A customer is listed exactly when its lowercased name contains the lowercased search
      text and the status filter is empty or equal to its status. */
  lemma KeptExactlyWhenMatching(customers: seq<Row>, filterText: string, status: string, c: Row)
    requires c in customers
    ensures c in FilteredCustomers(customers, filterText, status) <==>
      Includes(Lower(c.name), Lower(filterText)) && (status == "" || c.status == status)
  {
  }

  /** With no search text and no status every customer is listed. */
  lemma {:induction false} EmptyFiltersKeepAll(customers: seq<Row>)
    ensures FilteredCustomers(customers, "", "") == customers
  {
    assert Lower("") == [];
    forall c | c in customers ensures Matches(c, "", "") {
      assert OccursAt(Lower(c.name), "", 0);
    }
    FilterKeepsAll(customers, (c: Row) => Matches(c, "", ""));
  }

  /** Filtering the filtered list again changes nothing. */
  lemma FilterTwice(customers: seq<Row>, filterText: string, status: string)
    ensures FilteredCustomers(FilteredCustomers(customers, filterText, status), filterText, status)
         == FilteredCustomers(customers, filterText, status)
  {
    FilterIdempotent(customers, (c: Row) => Matches(c, filterText, status));
  }

  /** Rows that differ only in their e-mail addresses are listed at the same positions:
      the filter never consults the e-mail. */
  function WithEmails(customers: seq<Row>, emails: seq<string>): (r: seq<Row>)
    requires |emails| == |customers|
    ensures |r| == |customers|
    ensures forall i :: 0 <= i < |r| ==> r[i] == customers[i].(email := emails[i])
  {
    if customers == [] then []
    else [customers[0].(email := emails[0])] + WithEmails(customers[1..], emails[1..])
  }

  /** The name and status of each row, in order. */
  function Names(rows: seq<Row>): seq<(string, string)>
  {
    if rows == [] then [] else [(rows[0].name, rows[0].status)] + Names(rows[1..])
  }

  lemma {:induction false} EmailNotConsulted(customers: seq<Row>, emails: seq<string>, filterText: string, status: string)
    requires |emails| == |customers|
    ensures Names(FilteredCustomers(WithEmails(customers, emails), filterText, status))
         == Names(FilteredCustomers(customers, filterText, status))
    decreases customers
  {
    if customers != [] {
      var other := WithEmails(customers, emails);
      assert other == [customers[0].(email := emails[0])] + WithEmails(customers[1..], emails[1..]);
      assert other[1..] == WithEmails(customers[1..], emails[1..]);
      EmailNotConsulted(customers[1..], emails[1..], filterText, status);
      var a := FilteredCustomers(other[1..], filterText, status);
      var b := FilteredCustomers(customers[1..], filterText, status);
      assert Matches(other[0], filterText, status) == Matches(customers[0], filterText, status);
      if Matches(customers[0], filterText, status) {
        assert FilteredCustomers(other, filterText, status) == [other[0]] + a;
        assert FilteredCustomers(customers, filterText, status) == [customers[0]] + b;
        assert ([other[0]] + a)[1..] == a;
        assert ([customers[0]] + b)[1..] == b;
      } else {
        assert FilteredCustomers(other, filterText, status) == a;
        assert FilteredCustomers(customers, filterText, status) == b;
      }
    }
  }
}
