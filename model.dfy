/**
 * The part of ModelManager the commands use. The store is the ordered list of persons (its
 * order is the "original order"); the displayed list is derived from it through the current
 * filter and the optional comparator, and is recomputed from the latest state on every read.
 * The comparators themselves (by name, by renewal date, ...) are not part of this model: a
 * comparator is an opaque token whose order is uninterpreted.
 */
module Model {

  import opened Wrappers
  import opened Person
  /** The filter of the displayed list: any Predicate<Person>. */
  type Filter = Person -> bool

  /** PREDICATE_SHOW_ALL_PERSONS */
  const ShowAll: Filter := _ => true

  predicate Accepts(f: Filter, person: Person) {
    f(person)
  }

  /** A sort order chosen by a sort command. */
  type Comparator(==)

  /** Precedes(c, a, b): the comparator c puts a strictly before b. */
  const Precedes: (Comparator, Person, Person) -> bool

  /** r can be obtained from s by deleting elements: it keeps their order in s. */
  predicate IsSubsequence(r: seq<Person>, s: seq<Person>) {
    if r == [] then true
    else if s == [] then false
    else (r[0] == s[0] && IsSubsequence(r[1..], s[1..])) || IsSubsequence(r, s[1..])
  }

  /** The persons of s that the filter accepts, in their order in s. */
  function Select(s: seq<Person>, f: Filter): (r: seq<Person>)
    ensures |r| <= |s|
    ensures multiset(r) <= multiset(s)
    ensures forall x :: multiset(r)[x] == if Accepts(f, x) then multiset(s)[x] else 0
    ensures IsSubsequence(r, s)
    ensures forall x :: x in r <==> x in s && Accepts(f, x)
  {
    if s == [] then []
    else
      assert s == [s[0]] + s[1..];
      var rest := Select(s[1..], f);
      if Accepts(f, s[0]) then
        assert ([s[0]] + rest)[1..] == rest;
        [s[0]] + rest
      else
        assert rest == [] || IsSubsequence(rest, s[1..]);
        rest
  }

  /** Places x after every element of the sorted s that x does not strictly precede. */
  function Insert(c: Comparator, x: Person, s: seq<Person>): (r: seq<Person>)
    ensures multiset(r) == multiset(s) + multiset{x}
  {
    if s == [] then [x]
    else if Precedes(c, x, s[0]) then [x] + s
    else
      assert s == [s[0]] + s[1..];
      [s[0]] + Insert(c, x, s[1..])
  }

  /** Stable insertion sort: elements are inserted in their original order. */
  function SortBy(c: Comparator, s: seq<Person>): (r: seq<Person>)
    ensures multiset(r) == multiset(s)
  {
    if s == [] then []
    else
      assert s == s[..|s| - 1] + [s[|s| - 1]];
      Insert(c, s[|s| - 1], SortBy(c, s[..|s| - 1]))
  }

  /** Two sequences with the same elements counted with multiplicity have the same members. */
  lemma SameMembers(a: seq<Person>, b: seq<Person>)
    requires multiset(a) == multiset(b)
    ensures forall x :: x in a <==> x in b
  {
    forall x
      ensures x in a <==> x in b
    {
      assert x in a <==> x in multiset(a);
      assert x in b <==> x in multiset(b);
    }
  }

  /**
   * The displayed list: the filtered persons, in the comparator's order or else in original
   * order. Whatever the order, it holds exactly the accepted persons of the store.
   */
  function View(persons: seq<Person>, f: Filter, c: Option<Comparator>): (r: seq<Person>)
    ensures multiset(r) == multiset(Select(persons, f))
    ensures |r| == |Select(persons, f)|
    ensures forall x :: x in r <==> x in persons && Accepts(f, x)
  {
    var selected := Select(persons, f);
    var r := match c
      case None => selected
      case Some(cmp) => SortBy(cmp, selected);
    SameMembers(r, selected);
    assert |r| == |multiset(r)| == |multiset(selected)| == |selected|;
    r
  }

  /** Show-all in original order displays the whole store as it is. */
  lemma {:induction false} ShowAllOriginalOrder(persons: seq<Person>)
    ensures View(persons, ShowAll, None) == persons
  {
    if persons != [] {
      ShowAllOriginalOrder(persons[1..]);
      assert persons == [persons[0]] + persons[1..];
    }
  }

  /** The position of the first occurrence of x in s. */
  function IndexOf(s: seq<Person>, x: Person): (i: nat)
    requires x in s
    ensures i < |s| && s[i] == x
    ensures forall j :: 0 <= j < i ==> s[j] != x
  {
    if s[0] == x then 0 else 1 + IndexOf(s[1..], x)
  }

  /** The store after setPerson(target, edited): the first occurrence of target replaced. */
  function ReplaceFirst(s: seq<Person>, target: Person, edited: Person): (r: seq<Person>)
    requires target in s
    ensures |r| == |s|
    ensures r[IndexOf(s, target)] == edited
    ensures forall j :: 0 <= j < |s| && j != IndexOf(s, target) ==> r[j] == s[j]
  {
    s[IndexOf(s, target) := edited]
  }

  /** What a command that succeeds reports back. */
  datatype CommandResult = CommandResult(feedbackToUser: string)

  /** ModelManager, reduced to the store and the displayed person list. */
  class ModelManager {
    var persons: seq<Person>
    var filter: Filter
    var comparator: Option<Comparator>

    constructor (persons: seq<Person>)
      ensures this.persons == persons && filter == ShowAll && comparator == None
    {
      this.persons := persons;
      filter := ShowAll;
      comparator := None;
    }

    /** getFilteredPersonList: a read-only snapshot, always computed from the current state. */
    function FilteredPersonList(): (r: seq<Person>)
      reads this
      ensures forall x :: multiset(r)[x] == if Accepts(filter, x) then multiset(persons)[x] else 0
    {
      View(persons, filter, comparator)
    }

    /** setPerson: replaces target in the store; the filter and the order stay. */
    method SetPerson(target: Person, edited: Person)
      requires target in persons
      modifies this
      ensures persons == ReplaceFirst(old(persons), target, edited)
      ensures filter == old(filter) && comparator == old(comparator)
    {
      persons := ReplaceFirst(persons, target, edited);
    }

    /** updateFilteredPersonList: a new filter; the active comparator stays in force. */
    method UpdateFilteredPersonList(f: Filter)
      modifies this
      ensures filter == f
      ensures persons == old(persons) && comparator == old(comparator)
    {
      filter := f;
    }

    /** updateSortedPersonList: a new order; None (a null comparator) restores original order. */
    method UpdateSortedPersonList(c: Option<Comparator>)
      modifies this
      ensures comparator == c
      ensures persons == old(persons) && filter == old(filter)
      ensures c.None? ==> FilteredPersonList() == Select(persons, filter)
    {
      comparator := c;
    }
  }
}
