/**
 * The activity window the `show` pages render:
 * `$model->activities()->orderByDesc('created_at')->take(10)`.
 */
module ActivityLog {
  import opened Entities
  import opened Sorting

  /** How many entries a `show` page lists. */
  const WindowSize: nat := 10

  predicate IsAbout(subject: Subject, a: Activity) {
    a.subject == subject
  }

  /** The condition of `$model->activities()` as a row filter. */
  function About(subject: Subject): Activity -> bool {
    a => IsAbout(subject, a)
  }

  lemma NewestFirstIsPreorder()
    ensures TotalPreorder(ActivityNewerOrSame)
  {
  }

  /**
   * At most ten entries, all about `subject`, each taken from the log, newest
   * first, and no entry about `subject` left out is newer than one kept.
   */
  function Window(activities: seq<Activity>, subject: Subject): (w: seq<Activity>)
    ensures |w| <= WindowSize
    ensures forall k :: 0 <= k < |w| ==> w[k].subject == subject && w[k] in activities
    ensures SortedBy(w, ActivityNewerOrSame)
    ensures forall e :: e in activities && e.subject == subject && e !in w ==>
      forall k :: 0 <= k < |w| ==> w[k].createdAt >= e.createdAt
    ensures multiset(w) <= multiset(Filter(activities, About(subject)))
    ensures |w| == if |Filter(activities, About(subject))| < WindowSize then |Filter(activities, About(subject))| else WindowSize
  {
    NewestFirstIsPreorder();
    var mine := Filter(activities, About(subject));
    var w := Top(mine, WindowSize, ActivityNewerOrSame);
    WindowFacts(activities, subject, mine, w);
    w
  }

  lemma WindowFacts(activities: seq<Activity>, subject: Subject, mine: seq<Activity>, w: seq<Activity>)
    requires mine == Filter(activities, About(subject))
    requires multiset(w) <= multiset(mine)
    requires forall e :: e in mine && e !in w ==> forall k :: 0 <= k < |w| ==> ActivityNewerOrSame(w[k], e)
    ensures forall k :: 0 <= k < |w| ==> w[k].subject == subject && w[k] in activities
    ensures forall e :: e in activities && e.subject == subject && e !in w ==>
      forall k :: 0 <= k < |w| ==> w[k].createdAt >= e.createdAt
  {
    forall k | 0 <= k < |w|
      ensures w[k].subject == subject && w[k] in activities
    {
      assert w[k] in multiset(w);
      assert w[k] in multiset(mine);
      assert multiset(mine)[w[k]] > 0;
    }
    forall e | e in activities && e.subject == subject && e !in w
      ensures forall k :: 0 <= k < |w| ==> w[k].createdAt >= e.createdAt
    {
      assert About(subject)(e);
      assert multiset(mine)[e] == multiset(activities)[e];
      assert e in multiset(mine);
      assert e in mine;
    }
  }

  /** An entry appended about a subject, newer than every earlier entry about it, shows on that subject's page. */
  lemma NewEntryShown(activities: seq<Activity>, e: Activity)
    requires forall a :: a in activities && a.subject == e.subject ==> a.createdAt < e.createdAt
    ensures e in Window(activities + [e], e.subject)
  {
    var mine := Filter(activities + [e], About(e.subject));
    assert About(e.subject)(e);
    assert multiset(mine)[e] == multiset(activities + [e])[e] > 0;
    assert |Window(activities + [e], e.subject)| > 0;
  }
}
