/**
 * The `Addiction` record of `src/structures/Addiction.ts`: an item built from its stored form by
 * prepending a synthesised initial relapse at `startedAt` and sorting all relapses by time.
 */
module AddictionStructure {
  import opened Wrappers
  import opened Seqs

  /** A relapse event; `relapseAt` and `createdAt` are instants in milliseconds. */
  datatype Relapse = Relapse(id: string, addictionId: string, relapseAt: int, createdAt: int, note: string)

  /** The stored form the constructor receives (`FirebaseAddiction`). */
  datatype FirebaseAddiction = FirebaseAddiction(
    id: string,
    name: string,
    image: Option<string>,
    relapses: seq<Relapse>,
    hidden: bool,
    inverseTimelineColor: bool,
    startedAt: int,
    createdAt: int)

  /** Relapse times never decrease along `s`. */
  predicate SortedByTime(s: seq<Relapse>) {
    forall i, j :: 0 <= i < j < |s| ==> s[i].relapseAt <= s[j].relapseAt
  }

  /** The relapses of `s` that happened at instant `t`, in their order in `s`. */
  function At(s: seq<Relapse>, t: int): seq<Relapse> {
    Filter(s, (r: Relapse) => r.relapseAt == t)
  }

  /** A relapse no later than the head of a sorted list can be put in front of it. */
  lemma ConsSorted(x: Relapse, s: seq<Relapse>)
    requires SortedByTime(s)
    requires s != [] ==> x.relapseAt <= s[0].relapseAt
    ensures SortedByTime([x] + s)
  {
    var r := [x] + s;
    forall i, j | 0 <= i < j < |r| ensures r[i].relapseAt <= r[j].relapseAt {
      if i == 0 && j > 1 {
        assert r[j] == s[j - 1] && s[0].relapseAt <= s[j - 1].relapseAt;
      }
    }
  }

  /**
   * Inserts `x` in front of the first element of `s` that is not earlier than it: `x` goes before
   * every element with the same time, which is what keeps the sort below stable.
   */
  function Insert(x: Relapse, s: seq<Relapse>): (r: seq<Relapse>)
    ensures multiset(r) == multiset(s) + multiset{x}
    ensures |r| == |s| + 1
    ensures r[0] == x || (s != [] && r[0] == s[0])
  {
    if s == [] || x.relapseAt <= s[0].relapseAt then [x] + s
    else
      assert s == [s[0]] + s[1..];
      [s[0]] + Insert(x, s[1..])
  }

  /** Inserting into a sorted list keeps it sorted. */
  lemma {:induction false} InsertSorted(x: Relapse, s: seq<Relapse>)
    requires SortedByTime(s)
    ensures SortedByTime(Insert(x, s))
  {
    if s == [] || x.relapseAt <= s[0].relapseAt {
      ConsSorted(x, s);
    } else {
      var rest := Insert(x, s[1..]);
      InsertSorted(x, s[1..]);
      assert rest[0].relapseAt >= s[0].relapseAt by {
        if rest[0] != x {
          assert rest[0] == s[1..][0] == s[1];
        }
      }
      ConsSorted(s[0], rest);
    }
  }

  /**
   * Stable sort by `relapseAt` (`Array.prototype.sort` with the comparator
   * `a.relapseAt - b.relapseAt`, which ECMAScript 2019 requires to be stable), as an insertion sort.
   */
  function SortByRelapseAt(s: seq<Relapse>): (r: seq<Relapse>)
    ensures |r| == |s|
    ensures multiset(r) == multiset(s)
    ensures SortedByTime(r)
  {
    if s == [] then []
    else
      assert s == [s[0]] + s[1..];
      var sortedTail := SortByRelapseAt(s[1..]);
      InsertSorted(s[0], sortedTail);
      Insert(s[0], sortedTail)
  }

  lemma AtAppend(a: seq<Relapse>, b: seq<Relapse>, t: int)
    ensures At(a + b, t) == At(a, t) + At(b, t)
  {
    FilterAppend(a, b, (r: Relapse) => r.relapseAt == t);
  }

  lemma AtSingle(x: Relapse, t: int)
    ensures At([x], t) == if x.relapseAt == t then [x] else []
  {
  }

  /** Two relapses at different instants can trade places without changing any instant's sub-list. */
  lemma SwapAtDistinctTimes(x: Relapse, y: Relapse, t: int)
    requires x.relapseAt != y.relapseAt
    ensures At([x], t) + At([y], t) == At([y], t) + At([x], t)
  {
    AtSingle(x, t);
    AtSingle(y, t);
  }

  /** Inserting `x` only moves it past relapses at other instants. */
  lemma {:induction false} InsertKeepsOrderAt(x: Relapse, s: seq<Relapse>, t: int)
    ensures At(Insert(x, s), t) == At([x] + s, t)
  {
    if s != [] && x.relapseAt > s[0].relapseAt {
      var s0, s1 := s[0], s[1..];
      assert s == [s0] + s1;
      var tail := Insert(x, s1);
      assert Insert(x, s) == [s0] + tail;
      InsertKeepsOrderAt(x, s1, t);
      AtAppend([s0], tail, t);
      AtAppend([x], s1, t);
      SwapAtDistinctTimes(s0, x, t);
      AtAppend([s0], s1, t);
      AtAppend([x], s, t);
      assert At(Insert(x, s), t) == At([s0], t) + (At([x], t) + At(s1, t));
      assert At([x] + s, t) == At([x], t) + (At([s0], t) + At(s1, t));
    }
  }

  /**
   * Stability: for every instant, the relapses at that instant appear in the sorted list in the
   * same relative order as in the input.
   */
  lemma {:induction false} SortIsStable(s: seq<Relapse>, t: int)
    ensures At(SortByRelapseAt(s), t) == At(s, t)
  {
    if s != [] {
      var s0, s1 := s[0], s[1..];
      assert s == [s0] + s1;
      SortIsStable(s1, t);
      InsertKeepsOrderAt(s0, SortByRelapseAt(s1), t);
      AtAppend([s0], SortByRelapseAt(s1), t);
      AtAppend([s0], s1, t);
    }
  }

  /** The synthesised first relapse: id `startedAt`, at the start instant, with an empty note. */
  function InitialRelapse(src: FirebaseAddiction): (r: Relapse)
    ensures r.id == "startedAt" && r.addictionId == src.id && r.note == ""
    ensures r.relapseAt == src.startedAt && r.createdAt == src.createdAt
  {
    Relapse("startedAt", src.id, src.startedAt, src.createdAt, "")
  }

  /** `[initialRelapse, ...addiction.relapses].sort(byRelapseAt)`. */
  function BuildRelapses(src: FirebaseAddiction): (r: seq<Relapse>)
    ensures |r| == |src.relapses| + 1 && SortedByTime(r)
  {
    SortByRelapseAt([InitialRelapse(src)] + src.relapses)
  }

  /**
   * The built list holds the initial relapse and every stored relapse, sorted by time, and it is
   * never empty.
   */
  lemma BuildRelapsesContents(src: FirebaseAddiction)
    ensures var r := BuildRelapses(src);
            |r| == |src.relapses| + 1 &&
            multiset(r) == multiset{InitialRelapse(src)} + multiset(src.relapses) &&
            SortedByTime(r) && r != []
  {
  }

  /**
   * On a tie in time the initial relapse comes first, followed by the stored relapses at that
   * instant in their stored order.
   */
  lemma InitialRelapseFirstOnTies(src: FirebaseAddiction)
    ensures At(BuildRelapses(src), src.startedAt) == [InitialRelapse(src)] + At(src.relapses, src.startedAt)
    ensures forall t :: t != src.startedAt ==> At(BuildRelapses(src), t) == At(src.relapses, t)
  {
    var all := [InitialRelapse(src)] + src.relapses;
    forall t ensures At(BuildRelapses(src), t) == At(all, t) {
      SortIsStable(all, t);
    }
    forall t ensures At(all, t) == At([InitialRelapse(src)], t) + At(src.relapses, t) {
      AtAppend([InitialRelapse(src)], src.relapses, t);
    }
  }

  /** A tracked item. Its fields are set once, by the constructor. */
  class Addiction {
    const id: string
    const name: string
    const image: Option<string>
    const hidden: bool
    const inverseTimelineColor: bool
    const startedAt: int
    const createdAt: int
    const initialRelapse: Relapse
    const relapses: seq<Relapse>

    /** What the constructor establishes: a non-empty, time-sorted list that holds the initial relapse. */
    ghost predicate Valid() {
      relapses != [] && SortedByTime(relapses) && initialRelapse in relapses
    }

    constructor (src: FirebaseAddiction)
      ensures id == src.id && name == src.name && image == src.image && hidden == src.hidden
      ensures inverseTimelineColor == src.inverseTimelineColor
      ensures startedAt == src.startedAt && createdAt == src.createdAt
      ensures initialRelapse == InitialRelapse(src)
      ensures initialRelapse.id == "startedAt" && initialRelapse.addictionId == id && initialRelapse.note == ""
      ensures initialRelapse.relapseAt == startedAt && initialRelapse.createdAt == createdAt
      ensures relapses == BuildRelapses(src)
      ensures Valid()
    {
      id := src.id;
      name := src.name;
      image := src.image;
      hidden := src.hidden;
      inverseTimelineColor := src.inverseTimelineColor;
      startedAt := src.startedAt;
      createdAt := src.createdAt;
      initialRelapse := InitialRelapse(src);
      relapses := BuildRelapses(src);
      new;
      assert initialRelapse in multiset(relapses);
    }

    /** The latest relapse (getter `lastRelapse`); the fallback to the initial relapse is dead code. */
    function LastRelapse(): (r: Relapse)
      ensures Valid() ==> r == relapses[|relapses| - 1]
      ensures Valid() ==> forall x :: x in relapses ==> x.relapseAt <= r.relapseAt
    {
      if |relapses| > 0 then relapses[|relapses| - 1] else initialRelapse
    }

    /** The relapse instants, in list order (getter `relapseDates`). */
    function RelapseDates(): (r: seq<int>)
      ensures |r| == |relapses|
      ensures forall i :: 0 <= i < |r| ==> r[i] == relapses[i].relapseAt
      ensures Valid() ==> forall i, j :: 0 <= i < j < |r| ==> r[i] <= r[j]
    {
      seq(|relapses|, i requires 0 <= i < |relapses| => relapses[i].relapseAt)
    }
  }
}
