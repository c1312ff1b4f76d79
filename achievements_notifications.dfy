/**
 * Grouping of the scheduled achievement notifications by tracked item (`useAchievementsNotifications`):
 * for every item, the trigger notifications whose payload names that item's id.
 */
module AchievementsNotifications {
  import opened Wrappers
  import opened Seqs
  import opened AddictionStructure

  /**
   * A scheduled trigger notification, reduced to what the grouping looks at. `addictionId` is `None`
   * when the notification, its data or the `addictionId` entry of its data is missing.
   */
  datatype TriggerNotification = TriggerNotification(id: string, addictionId: Option<string>)

  /** One output entry: an item and the notifications scheduled for it. */
  datatype AchievementNotifications = AchievementNotifications(addiction: Addiction, notifications: seq<TriggerNotification>)

  /** Whether a notification's payload names the item `id` (`notification?.data?.addictionId === id`). */
  predicate ForItem(n: TriggerNotification, id: string) {
    n.addictionId == Some(id)
  }

  /** The notifications of `ns` that name the item `id`, every copy of each, in their original order. */
  function NotificationsFor(ns: seq<TriggerNotification>, id: string): (r: seq<TriggerNotification>)
    ensures forall n :: n in r <==> n in ns && ForItem(n, id)
    ensures forall n :: multiset(r)[n] == if ForItem(n, id) then multiset(ns)[n] else 0
    ensures IsSubsequence(r, ns)
  {
    var keep := (n: TriggerNotification) => ForItem(n, id);
    FilterIsSubsequence(ns, keep);
    FilterCount(ns, keep);
    Filter(ns, keep)
  }

  /** The hook's result: one entry per item, in the items' order. */
  function Group(addictions: seq<Addiction>, ns: seq<TriggerNotification>): (r: seq<AchievementNotifications>)
    ensures |r| == |addictions|
    ensures forall i :: 0 <= i < |r| ==> r[i].addiction == addictions[i]
  {
    seq(|addictions|, i requires 0 <= i < |addictions| =>
      AchievementNotifications(addictions[i], NotificationsFor(ns, addictions[i].id)))
  }

  /**
   * Each entry holds exactly the notifications naming its item, every copy of each, in the order
   * they were scheduled.
   */
  lemma EntryContents(addictions: seq<Addiction>, ns: seq<TriggerNotification>, i: int)
    requires 0 <= i < |addictions|
    ensures var e := Group(addictions, ns)[i];
      (forall n :: n in e.notifications <==> n in ns && n.addictionId == Some(addictions[i].id))
      && (forall n :: multiset(e.notifications)[n] ==
            if n.addictionId == Some(addictions[i].id) then multiset(ns)[n] else 0)
      && IsSubsequence(e.notifications, ns)
  {
  }

  /** A notification without an item id, or naming no listed item, appears in no entry. */
  lemma UnmatchedInNoEntry(addictions: seq<Addiction>, ns: seq<TriggerNotification>, n: TriggerNotification)
    requires n.addictionId.None? || forall a :: a in addictions ==> n.addictionId != Some(a.id)
    ensures forall e :: e in Group(addictions, ns) ==> n !in e.notifications
  {
    var r := Group(addictions, ns);
    forall e | e in r
      ensures n !in e.notifications
    {
      var i :| 0 <= i < |r| && r[i] == e;
      assert addictions[i] in addictions;
    }
  }

  /** When item ids are distinct, a notification appears in at most one entry. */
  lemma AtMostOneEntry(addictions: seq<Addiction>, ns: seq<TriggerNotification>, n: TriggerNotification, i: int, j: int)
    requires forall p, q :: 0 <= p < q < |addictions| ==> addictions[p].id != addictions[q].id
    requires 0 <= i < |addictions| && 0 <= j < |addictions|
    requires n in Group(addictions, ns)[i].notifications && n in Group(addictions, ns)[j].notifications
    ensures i == j
  {
  }
}
