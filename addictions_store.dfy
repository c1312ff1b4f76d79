/**
 * The addictions slice of the application store (`src/store/addictions.ts`, an older revision in
 * which an addiction keeps its relapses as a list of instants and stores `lastRelapse` itself).
 * The store's actions update the list in place; here they are methods of `Store`, each proved
 * against a function that gives the new list.
 */
module AddictionsStore {
  import opened Wrappers
  import opened Seqs

  /** An addiction as the slice holds it; `relapses` and `lastRelapse` are instants in milliseconds. */
  datatype StoredAddiction = StoredAddiction(
    id: string,
    name: string,
    image: Option<string>,
    hidden: bool,
    startedAt: int,
    createdAt: int,
    relapses: seq<int>,
    lastRelapse: Option<int>)

  /** `Partial<Addiction>`: each field either absent or given; nullable fields may be given as null. */
  datatype Patch = Patch(
    id: Option<string>,
    name: Option<string>,
    image: Option<Option<string>>,
    hidden: Option<bool>,
    startedAt: Option<int>,
    createdAt: Option<int>,
    relapses: Option<seq<int>>,
    lastRelapse: Option<Option<int>>)

  /** The patch that names no field. */
  const NoChange := Patch(None, None, None, None, None, None, None, None)

  /** `Object.assign(a, patch)`: every field the patch names is overwritten, the others are kept. */
  function Merge(a: StoredAddiction, p: Patch): (r: StoredAddiction)
    ensures p == NoChange ==> r == a
    ensures p.id.None? ==> r.id == a.id
  {
    StoredAddiction(
      p.id.GetOr(a.id),
      p.name.GetOr(a.name),
      p.image.GetOr(a.image),
      p.hidden.GetOr(a.hidden),
      p.startedAt.GetOr(a.startedAt),
      p.createdAt.GetOr(a.createdAt),
      p.relapses.GetOr(a.relapses),
      p.lastRelapse.GetOr(a.lastRelapse))
  }

  /** Merging an empty patch changes nothing, and merging the same patch twice is merging it once. */
  lemma MergeProperties(a: StoredAddiction, p: Patch)
    ensures Merge(a, NoChange) == a
    ensures Merge(Merge(a, p), p) == Merge(a, p)
    ensures p.id.None? ==> Merge(a, p).id == a.id
  {
  }

  /** `addictions.find(a => a.id === id)`, as the index of the first match. */
  function FindIndex(s: seq<StoredAddiction>, id: string): (r: Option<nat>)
    ensures r.Some? ==> r.value < |s| && s[r.value].id == id
    ensures r.Some? ==> forall j :: 0 <= j < r.value ==> s[j].id != id
    ensures r.None? ==> forall j :: 0 <= j < |s| ==> s[j].id != id
  {
    if s == [] then None
    else if s[0].id == id then Some(0)
    else match FindIndex(s[1..], id)
      case None => None
      case Some(i) => Some(i + 1)
  }

  /** Replacing an element by one with the same id leaves every `find` by id where it was. */
  lemma FindIndexAfterUpdate(s: seq<StoredAddiction>, i: nat, a: StoredAddiction, id: string)
    requires i < |s| && a.id == s[i].id
    ensures FindIndex(s[i := a], id) == FindIndex(s, id)
  {
    var r, r' := FindIndex(s, id), FindIndex(s[i := a], id);
    if r.Some? {
      assert s[i := a][r.value].id == id;
    }
    if r'.Some? {
      assert s[r'.value].id == id;
    }
  }

  /** `edit(id, patch)`: merge the patch into the first addiction with that id; no match, no change. */
  function EditFirst(s: seq<StoredAddiction>, id: string, p: Patch): (r: seq<StoredAddiction>)
    ensures |r| == |s|
    ensures FindIndex(s, id).None? ==> r == s
  {
    match FindIndex(s, id)
    case None => s
    case Some(i) => s[i := Merge(s[i], p)]
  }

  /** `remove(id)`: drop every addiction with that id. */
  function RemoveId(s: seq<StoredAddiction>, id: string): (r: seq<StoredAddiction>)
    ensures forall a: StoredAddiction :: multiset(r)[a] == if a.id != id then multiset(s)[a] else 0
  {
    var keep := (a: StoredAddiction) => a.id != id;
    FilterCount(s, keep);
    Filter(s, keep)
  }

  /** `addiction.relapses.push(date); addiction.lastRelapse = date`. */
  function WithRelapse(a: StoredAddiction, date: int): StoredAddiction {
    a.(relapses := a.relapses + [date], lastRelapse := Some(date))
  }

  /** The relapses other than those at `date`, in their order. */
  function RelapsesWithout(relapses: seq<int>, date: int): (r: seq<int>)
    ensures forall t :: multiset(r)[t] == if t != date then multiset(relapses)[t] else 0
  {
    var keep := (t: int) => t != date;
    FilterCount(relapses, keep);
    Filter(relapses, keep)
  }

  /**
   * `addiction.relapses = relapses.filter(t => t !== date); addiction.lastRelapse = relapses[0]`:
   * the stored last relapse becomes the FIRST remaining one, or undefined when none remains.
   */
  function WithoutRelapse(a: StoredAddiction, date: int): StoredAddiction {
    var rest := RelapsesWithout(a.relapses, date);
    a.(relapses := rest, lastRelapse := if rest == [] then None else Some(rest[0]))
  }

  /** `addRelapse(id, date)` on the whole list. */
  function AddRelapseTo(s: seq<StoredAddiction>, id: string, date: int): (r: seq<StoredAddiction>)
    ensures |r| == |s|
    ensures FindIndex(s, id).None? ==> r == s
  {
    match FindIndex(s, id)
    case None => s
    case Some(i) => s[i := WithRelapse(s[i], date)]
  }

  /** `removeRelapse(id, date)` on the whole list. */
  function RemoveRelapseFrom(s: seq<StoredAddiction>, id: string, date: int): (r: seq<StoredAddiction>)
    ensures |r| == |s|
    ensures FindIndex(s, id).None? ==> r == s
  {
    match FindIndex(s, id)
    case None => s
    case Some(i) => s[i := WithoutRelapse(s[i], date)]
  }

  /**
   * `edit` merges the patch into the first addiction with the id and changes nothing else; when
   * no addiction has the id the list is unchanged.
   */
  lemma EditChangesOnlyFirstMatch(s: seq<StoredAddiction>, id: string, p: Patch)
    ensures var r := EditFirst(s, id, p);
            |r| == |s| &&
            (forall j :: 0 <= j < |s| && s[j].id != id ==> r[j] == s[j]) &&
            (forall j :: 0 <= j < |s| && s[j].id == id ==> r[j] == s[j] || FindIndex(s, id) == Some(j)) &&
            (FindIndex(s, id).Some? ==> var i := FindIndex(s, id).value; r[i] == Merge(s[i], p)) &&
            (FindIndex(s, id).None? ==> r == s)
  {
  }

  /**
   * `remove` leaves exactly the addictions with another id, every copy of each, in their relative
   * order.
   */
  lemma RemoveDeletesEveryMatch(s: seq<StoredAddiction>, id: string)
    ensures var r := RemoveId(s, id);
            (forall a :: a in r <==> a in s && a.id != id) && IsSubsequence(r, s) &&
            (forall a: StoredAddiction :: a.id != id ==> multiset(r)[a] == multiset(s)[a])
  {
    FilterIsSubsequence(s, (a: StoredAddiction) => a.id != id);
  }

  /**
   * `addRelapse` appends the date to the first matching addiction's relapses and makes it the
   * stored last relapse, leaving its other fields alone; every other entry is unchanged, and an
   * unknown id changes nothing.
   */
  lemma AddRelapseAppends(s: seq<StoredAddiction>, id: string, date: int)
    ensures var r := AddRelapseTo(s, id, date);
            |r| == |s| &&
            (forall j :: 0 <= j < |s| && Some(j) != FindIndex(s, id) ==> r[j] == s[j]) &&
            (FindIndex(s, id).Some? ==>
               var i := FindIndex(s, id).value;
               r[i] == s[i].(relapses := s[i].relapses + [date], lastRelapse := Some(date)))
  {
  }

  /**
   * `removeRelapse` drops every relapse equal to the date from the first matching addiction and
   * keeps every copy of the others, in order; its stored last relapse becomes the first remaining relapse.
   */
  lemma RemoveRelapseDrops(s: seq<StoredAddiction>, id: string, date: int)
    ensures var r := RemoveRelapseFrom(s, id, date);
            |r| == |s| &&
            (forall j :: 0 <= j < |s| && Some(j) != FindIndex(s, id) ==> r[j] == s[j]) &&
            (FindIndex(s, id).Some? ==>
               var i := FindIndex(s, id).value;
               (forall t :: t in r[i].relapses <==> t in s[i].relapses && t != date) &&
               (forall t :: t != date ==> multiset(r[i].relapses)[t] == multiset(s[i].relapses)[t]) &&
               IsSubsequence(r[i].relapses, s[i].relapses) &&
               r[i] == s[i].(relapses := RelapsesWithout(s[i].relapses, date),
                             lastRelapse := if r[i].relapses == [] then None else Some(r[i].relapses[0])))
  {
    if FindIndex(s, id).Some? {
      var i := FindIndex(s, id).value;
      FilterIsSubsequence(s[i].relapses, (t: int) => t != date);
    }
  }

  /**
   * Rollback: `addRelapse(id, d)` followed by `removeRelapse(id, d)` gives back every relapse list
   * when `d` was not already among that addiction's relapses (the converse is
   * `RollbackDeletesExisting`). The stored last relapse of that addiction then becomes its first
   * relapse, not the one it held before.
   */
  lemma {:induction false} RelapseRollback(s: seq<StoredAddiction>, id: string, date: int)
    requires FindIndex(s, id).Some? ==> date !in s[FindIndex(s, id).value].relapses
    ensures var r := RemoveRelapseFrom(AddRelapseTo(s, id, date), id, date);
            match FindIndex(s, id)
            case None => r == s
            case Some(i) =>
              r == s[i := s[i].(lastRelapse := if s[i].relapses == [] then None else Some(s[i].relapses[0]))]
  {
    match FindIndex(s, id)
    case None =>
    case Some(i) =>
      var added := WithRelapse(s[i], date);
      FindIndexAfterUpdate(s, i, added, id);
      AppendThenFilterOut(s[i].relapses, date, (t: int) => t != date);
      assert RelapsesWithout(added.relapses, date) == s[i].relapses;
      assert WithoutRelapse(added, date) == s[i].(lastRelapse := if s[i].relapses == [] then None else Some(s[i].relapses[0]));
  }

  /**
   * When `d` was already among the matching addiction's relapses, the same rollback removes every
   * copy of it, the one recorded before included, so the list does not come back.
   */
  lemma RollbackDeletesExisting(s: seq<StoredAddiction>, id: string, date: int)
    requires FindIndex(s, id).Some? && date in s[FindIndex(s, id).value].relapses
    ensures var i := FindIndex(s, id).value;
            var r := RemoveRelapseFrom(AddRelapseTo(s, id, date), id, date);
            r[i].relapses == RelapsesWithout(s[i].relapses, date) && date !in r[i].relapses && r != s
  {
    var i := FindIndex(s, id).value;
    var added := WithRelapse(s[i], date);
    FindIndexAfterUpdate(s, i, added, id);
    FilterAppend(s[i].relapses, [date], (t: int) => t != date);
    assert Filter([date], (t: int) => t != date) == [];
    assert RelapsesWithout(added.relapses, date) == RelapsesWithout(s[i].relapses, date);
  }

  /** The fields the list can be sorted by (`keyof Addiction`). */
  datatype SortField = Id | Name | Image | Relapses | Hidden | StartedAt | CreatedAt | LastRelapse

  datatype Direction = Asc | Desc

  datatype AddictionSorting = AddictionSorting(direction: Direction, field: SortField)

  /** The runtime kind and value of a field: null/undefined, a Date, a string, a number, or anything else. */
  datatype FieldValue = Missing | DateValue(time: int) | StringValue(text: string) | NumberValue(number: int) | OtherValue

  /** `a[field]`, classified by its runtime kind. */
  function FieldOf(a: StoredAddiction, field: SortField): (v: FieldValue)
    ensures v.Missing? <==> (field == Image && a.image.None?) || (field == LastRelapse && a.lastRelapse.None?)
    ensures v.DateValue? <==> field in {StartedAt, CreatedAt} || (field == LastRelapse && a.lastRelapse.Some?)
  {
    match field
    case Id => StringValue(a.id)
    case Name => StringValue(a.name)
    case Image => if a.image.None? then Missing else StringValue(a.image.value)
    case Relapses => OtherValue
    case Hidden => OtherValue
    case StartedAt => DateValue(a.startedAt)
    case CreatedAt => DateValue(a.createdAt)
    case LastRelapse => if a.lastRelapse.None? then Missing else DateValue(a.lastRelapse.value)
  }

  /**
   * The comparator built by `getSortingFunction`, on two field values. `localeCompare` is
   * `String.prototype.localeCompare`, left uninterpreted.
   */
  function CompareValues(direction: Direction, localeCompare: (string, string) -> int, x: FieldValue, y: FieldValue)
    : (c: int)
    ensures x.Missing? || y.Missing? || x.OtherValue? || y.OtherValue? ==> c == 0
  {
    if x.Missing? || y.Missing? then 0
    else if x.DateValue? && y.DateValue? then
      (if direction == Asc then x.time - y.time else y.time - x.time)
    else if x.StringValue? && y.StringValue? then
      (if direction == Asc then localeCompare(x.text, y.text) else localeCompare(y.text, x.text))
    else if x.NumberValue? && y.NumberValue? then
      (if direction == Asc then x.number - y.number else y.number - x.number)
    else 0
  }

  /** `getSortingFunction(sorting)(a, b)`. */
  function Compare(sorting: AddictionSorting, localeCompare: (string, string) -> int, a: StoredAddiction, b: StoredAddiction)
    : (c: int)
    ensures sorting.field in {Relapses, Hidden} ==> c == 0
    ensures sorting.field == StartedAt ==>
              c == if sorting.direction == Asc then a.startedAt - b.startedAt else b.startedAt - a.startedAt
    ensures sorting.field == CreatedAt ==>
              c == if sorting.direction == Asc then a.createdAt - b.createdAt else b.createdAt - a.createdAt
  {
    CompareValues(sorting.direction, localeCompare, FieldOf(a, sorting.field), FieldOf(b, sorting.field))
  }

  /**
   * The comparator answers 0 when either field is null or undefined and when the two fields are
   * of different kinds or of a kind it does not compare.
   */
  lemma CompareZeroCases(direction: Direction, localeCompare: (string, string) -> int, x: FieldValue, y: FieldValue)
    requires x.Missing? || y.Missing? || x.OtherValue? || y.OtherValue? || x.DateValue? != y.DateValue? ||
             x.StringValue? != y.StringValue? || x.NumberValue? != y.NumberValue?
    ensures CompareValues(direction, localeCompare, x, y) == 0
  {
  }

  /**
   * Dates compare by their instants and numbers by their values; descending is the exact negation
   * of ascending, and ascending is antisymmetric. Strings compare descending as ascending with the
   * arguments swapped.
   */
  lemma CompareDirections(localeCompare: (string, string) -> int, x: FieldValue, y: FieldValue)
    ensures x.DateValue? && y.DateValue? ==> CompareValues(Asc, localeCompare, x, y) == x.time - y.time
    ensures x.NumberValue? && y.NumberValue? ==> CompareValues(Asc, localeCompare, x, y) == x.number - y.number
    ensures (x.DateValue? && y.DateValue?) || (x.NumberValue? && y.NumberValue?) ==>
              CompareValues(Desc, localeCompare, x, y) == -CompareValues(Asc, localeCompare, x, y) &&
              CompareValues(Asc, localeCompare, y, x) == -CompareValues(Asc, localeCompare, x, y)
    ensures x.StringValue? && y.StringValue? ==>
              CompareValues(Desc, localeCompare, x, y) == CompareValues(Asc, localeCompare, y, x)
  {
  }

  /**
   * Under the default sorting (ascending by `lastRelapse`), two addictions that both have a last
   * relapse are ordered by it, and one without a last relapse ties with everything.
   */
  lemma DefaultSortingByLastRelapse(localeCompare: (string, string) -> int, a: StoredAddiction, b: StoredAddiction)
    ensures var c := Compare(DefaultSorting, localeCompare, a, b);
            (a.lastRelapse.Some? && b.lastRelapse.Some? ==>
               (c < 0 <==> a.lastRelapse.value < b.lastRelapse.value) &&
               (c == 0 <==> a.lastRelapse == b.lastRelapse)) &&
            (a.lastRelapse.None? || b.lastRelapse.None? ==> c == 0)
  {
  }

  /** The initial sorting of the slice. */
  const DefaultSorting := AddictionSorting(Asc, LastRelapse)

  /** The addictions slice: the sorting in force and the list of addictions. */
  class Store {
    var sorting: AddictionSorting
    var addictions: seq<StoredAddiction>

    constructor ()
      ensures sorting == DefaultSorting && addictions == []
    {
      sorting := DefaultSorting;
      addictions := [];
    }

    /** `setSorting`. */
    method SetSorting(s: AddictionSorting)
      modifies this
      ensures sorting == s && addictions == old(addictions)
    {
      sorting := s;
    }

    /** `setAddictions`: replace the list wholesale. */
    method SetAddictions(list: seq<StoredAddiction>)
      modifies this
      ensures addictions == list && sorting == old(sorting)
    {
      addictions := list;
    }

    /** `add`: push at the end, with no check for an existing id. */
    method Add(a: StoredAddiction)
      modifies this
      ensures addictions == old(addictions) + [a] && sorting == old(sorting)
    {
      addictions := addictions + [a];
    }

    /** `edit`. */
    method Edit(id: string, p: Patch)
      modifies this
      ensures addictions == EditFirst(old(addictions), id, p) && sorting == old(sorting)
    {
      var found := FindIndex(addictions, id);
      if found.None? {
        return;
      }
      var i := found.value;
      addictions := addictions[i := Merge(addictions[i], p)];
    }

    /** `remove`. */
    method Remove(id: string)
      modifies this
      ensures addictions == RemoveId(old(addictions), id) && sorting == old(sorting)
    {
      addictions := Filter(addictions, (a: StoredAddiction) => a.id != id);
    }

    /** `addRelapse`. */
    method AddRelapse(id: string, date: int)
      modifies this
      ensures addictions == AddRelapseTo(old(addictions), id, date) && sorting == old(sorting)
    {
      var found := FindIndex(addictions, id);
      if found.None? {
        return;
      }
      var i := found.value;
      var a := addictions[i];
      a := a.(relapses := a.relapses + [date]);
      a := a.(lastRelapse := Some(date));
      addictions := addictions[i := a];
    }

    /** `removeRelapse`. */
    method RemoveRelapse(id: string, date: int)
      modifies this
      ensures addictions == RemoveRelapseFrom(old(addictions), id, date) && sorting == old(sorting)
    {
      var found := FindIndex(addictions, id);
      if found.None? {
        return;
      }
      var i := found.value;
      var a := addictions[i];
      var relapses := Filter(a.relapses, (t: int) => t != date);
      a := a.(relapses := relapses);
      a := a.(lastRelapse := if |a.relapses| > 0 then Some(a.relapses[0]) else None);
      addictions := addictions[i := a];
    }

    /**
     * The optimistic relapse of the addiction screen: with nobody signed in, nothing happens;
     * otherwise record the relapse locally, then, if the remote write fails, remove it again. On
     * failure every relapse list is as before whenever the date was new to that addiction; when it
     * was not, every copy of it is gone.
     */
    method RelapseOptimistically(signedIn: bool, id: string, date: int, remoteSucceeded: bool)
      modifies this
      ensures !signedIn ==> addictions == old(addictions)
      ensures signedIn && remoteSucceeded ==> addictions == AddRelapseTo(old(addictions), id, date)
      ensures signedIn && !remoteSucceeded ==>
                addictions == RemoveRelapseFrom(AddRelapseTo(old(addictions), id, date), id, date)
      ensures signedIn && !remoteSucceeded && FindIndex(old(addictions), id).None? ==> addictions == old(addictions)
      ensures signedIn && !remoteSucceeded && FindIndex(old(addictions), id).Some? &&
              date !in old(addictions)[FindIndex(old(addictions), id).value].relapses ==>
                |addictions| == |old(addictions)| &&
                forall j :: 0 <= j < |addictions| ==> addictions[j].relapses == old(addictions)[j].relapses
      ensures signedIn && !remoteSucceeded && FindIndex(old(addictions), id).Some? &&
              date in old(addictions)[FindIndex(old(addictions), id).value].relapses ==>
                date !in addictions[FindIndex(old(addictions), id).value].relapses && addictions != old(addictions)
      ensures sorting == old(sorting)
    {
      if !signedIn {
        return;
      }
      ghost var before := addictions;
      AddRelapse(id, date);
      if !remoteSucceeded {
        RemoveRelapse(id, date);
        if FindIndex(before, id).None? || date !in before[FindIndex(before, id).value].relapses {
          RelapseRollback(before, id, date);
        } else {
          RollbackDeletesExisting(before, id, date);
        }
      }
    }

    /**
     * The optimistic deletion of the addiction screen: with nobody signed in, nothing happens;
     * otherwise remove the addiction locally, then, if the remote delete fails, add it back. The
     * restored addiction goes to the END of the list.
     */
    method RemoveOptimistically(signedIn: bool, a: StoredAddiction, remoteSucceeded: bool)
      modifies this
      ensures !signedIn ==> addictions == old(addictions)
      ensures signedIn && remoteSucceeded ==> addictions == RemoveId(old(addictions), a.id)
      ensures signedIn && !remoteSucceeded ==> addictions == RemoveId(old(addictions), a.id) + [a]
      ensures signedIn && !remoteSucceeded && (forall b :: b in old(addictions) && b.id == a.id ==> b == a) &&
              a in old(addictions) ==>
                (forall b :: b in addictions <==> b in old(addictions)) && addictions[|addictions| - 1] == a
      ensures sorting == old(sorting)
    {
      if !signedIn {
        return;
      }
      Remove(a.id);
      if !remoteSucceeded {
        Add(a);
      }
    }
  }
}
