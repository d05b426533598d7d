/**
 * The list logic of `TaskManager` on the values of its tasks: the filters behind
 * `get_pending_tasks`, `get_completed_tasks` and `search_tasks`, the first-match scan
 * of `get_task_by_id`, and the effect of `mark_task_completed` and `delete_task`.
 */
module TaskQueries {
  import opened Wrappers
  import opened PyText
  import opened Tasks

  /** Which tasks a listing keeps. */
  datatype Criterion =
    | PendingOnly
    | CompletedOnly
    | Search(keyword: Option<string>, dueDate: Option<string>)

  /** A search argument that is `None` or empty, so that `if keyword:` skips it. */
  predicate Absent(arg: Option<string>) {
    arg.None? || arg.value == ""
  }

  /** The keyword, lower-cased, is in the lower-cased title or description. */
  predicate KeywordMatches(keyword: Option<string>, d: TaskData) {
    || Absent(keyword)
    || Contains(Lower(d.title), Lower(keyword.value))
    || Contains(Lower(d.description), Lower(keyword.value))
  }

  predicate DueDateMatches(dueDate: Option<string>, d: TaskData) {
    Absent(dueDate) || d.dueDate == dueDate.value
  }

  predicate Accepts(c: Criterion, d: TaskData) {
    match c
    case PendingOnly => !d.completed
    case CompletedOnly => d.completed
    case Search(keyword, dueDate) => KeywordMatches(keyword, d) && DueDateMatches(dueDate, d)
  }

  /**
   * The elements of `xs` whose parallel value in `ds` the criterion accepts, in their
   * original order (`xs` are task objects or the values themselves).
   */
  function Keep<T(==)>(xs: seq<T>, ds: seq<TaskData>, c: Criterion): (r: seq<T>)
    requires |xs| == |ds|
    ensures |r| <= |xs|
    ensures forall i :: 0 <= i < |xs| && Accepts(c, ds[i]) ==> xs[i] in r
    ensures forall x :: x in r ==> exists i :: 0 <= i < |xs| && xs[i] == x && Accepts(c, ds[i])
  {
    if xs == [] then []
    else
      var rest := Keep(xs[1..], ds[1..], c);
      assert forall i :: 1 <= i < |xs| ==> xs[i] == xs[1..][i - 1] && ds[i] == ds[1..][i - 1];
      (if Accepts(c, ds[0]) then [xs[0]] else []) + rest
  }

  /** Keeping from a list extended at the end extends the kept list at the end. */
  lemma {:induction false} KeepSnoc<T>(xs: seq<T>, ds: seq<TaskData>, c: Criterion, x: T, d: TaskData)
    requires |xs| == |ds|
    ensures Keep(xs + [x], ds + [d], c) == Keep(xs, ds, c) + (if Accepts(c, d) then [x] else [])
  {
    if xs != [] {
      assert (xs + [x])[1..] == xs[1..] + [x];
      assert (ds + [d])[1..] == ds[1..] + [d];
      KeepSnoc(xs[1..], ds[1..], c, x, d);
    }
  }

  /** How many positions hold `x` with an accepted value. */
  function AcceptedCount<T(==)>(xs: seq<T>, ds: seq<TaskData>, c: Criterion, x: T): nat
    requires |xs| == |ds|
  {
    if xs == [] then 0
    else (if xs[0] == x && Accepts(c, ds[0]) then 1 else 0) + AcceptedCount(xs[1..], ds[1..], c, x)
  }

  /** The listing holds each element exactly as often as it stands at an accepted position. */
  lemma {:induction false} KeepMultiplicity<T>(xs: seq<T>, ds: seq<TaskData>, c: Criterion, x: T)
    requires |xs| == |ds|
    ensures multiset(Keep(xs, ds, c))[x] == AcceptedCount(xs, ds, c, x)
  {
    if xs != [] {
      var head := if Accepts(c, ds[0]) then [xs[0]] else [];
      KeepMultiplicity(xs[1..], ds[1..], c, x);
      assert multiset(Keep(xs, ds, c)) == multiset(head) + multiset(Keep(xs[1..], ds[1..], c));
    }
  }

  /** One step of a loop that keeps from a growing prefix. */
  lemma KeepPrefixStep<T>(xs: seq<T>, ds: seq<TaskData>, c: Criterion, i: nat)
    requires |xs| == |ds| && i < |xs|
    ensures Keep(xs[..i + 1], ds[..i + 1], c) == Keep(xs[..i], ds[..i], c) + (if Accepts(c, ds[i]) then [xs[i]] else [])
  {
    assert xs[..i + 1] == xs[..i] + [xs[i]];
    assert ds[..i + 1] == ds[..i] + [ds[i]];
    KeepSnoc(xs[..i], ds[..i], c, xs[i], ds[i]);
  }

  /** `r` is `s` with some elements left out and the rest in their order. */
  predicate IsSubsequence<T(==)>(r: seq<T>, s: seq<T>)
    decreases |s|
  {
    if r == [] then true
    else if s == [] then false
    else if r[0] == s[0] then IsSubsequence(r[1..], s[1..])
    else IsSubsequence(r, s[1..])
  }

  /** Every listing preserves the original order. */
  lemma {:induction false} KeepIsSubsequence<T>(xs: seq<T>, ds: seq<TaskData>, c: Criterion)
    requires |xs| == |ds|
    ensures IsSubsequence(Keep(xs, ds, c), xs)
  {
    if xs != [] {
      KeepIsSubsequence(xs[1..], ds[1..], c);
      var rest := Keep(xs[1..], ds[1..], c);
      if Accepts(c, ds[0]) {
        assert ([xs[0]] + rest)[1..] == rest;
      } else {
        assert [] + rest == rest;
        SubsequenceOfTail(rest, xs);
      }
    }
  }

  lemma {:induction false} SubsequenceOfTail<T>(r: seq<T>, s: seq<T>)
    requires s != [] && IsSubsequence(r, s[1..])
    ensures IsSubsequence(r, s)
    decreases |s|, 0
  {
    if r != [] && r[0] == s[0] {
      SubsequenceDropFirst(r, s[1..]);
    }
  }

  lemma {:induction false} SubsequenceDropFirst<T>(r: seq<T>, s: seq<T>)
    requires r != [] && IsSubsequence(r, s)
    ensures IsSubsequence(r[1..], s)
    decreases |s|, 1
  {
    if r[0] != s[0] {
      SubsequenceDropFirst(r, s[1..]);
      SubsequenceOfTail(r[1..], s);
    } else if r[1..] != [] {
      SubsequenceOfTail(r[1..], s);
    }
  }

  /** The length of a listing depends on the values only. */
  lemma {:induction false} KeepLength<T, U>(xs: seq<T>, ys: seq<U>, ds: seq<TaskData>, c: Criterion)
    requires |xs| == |ds| && |ys| == |ds|
    ensures |Keep(xs, ds, c)| == |Keep(ys, ds, c)|
  {
    if xs != [] {
      KeepLength(xs[1..], ys[1..], ds[1..], c);
    }
  }

  /** Two criteria that accept the same tasks give the same listing. */
  lemma {:induction false} KeepCongruent<T>(xs: seq<T>, ds: seq<TaskData>, c1: Criterion, c2: Criterion)
    requires |xs| == |ds|
    requires forall i :: 0 <= i < |ds| ==> (Accepts(c1, ds[i]) <==> Accepts(c2, ds[i]))
    ensures Keep(xs, ds, c1) == Keep(xs, ds, c2)
  {
    if xs != [] {
      assert forall i :: 1 <= i < |ds| ==> ds[i] == ds[1..][i - 1];
      KeepCongruent(xs[1..], ds[1..], c1, c2);
    }
  }

  /** A criterion that accepts every task keeps the whole list. */
  lemma {:induction false} KeepEverything<T>(xs: seq<T>, ds: seq<TaskData>, c: Criterion)
    requires |xs| == |ds| && forall i :: 0 <= i < |ds| ==> Accepts(c, ds[i])
    ensures Keep(xs, ds, c) == xs
  {
    if xs != [] {
      assert forall i :: 1 <= i < |ds| ==> ds[i] == ds[1..][i - 1];
      KeepEverything(xs[1..], ds[1..], c);
    }
  }

  /** A search with neither filter given (or both empty) returns every task. */
  lemma SearchWithoutFilters<T>(xs: seq<T>, ds: seq<TaskData>, keyword: Option<string>, dueDate: Option<string>)
    requires |xs| == |ds| && Absent(keyword) && Absent(dueDate)
    ensures Keep(xs, ds, Search(keyword, dueDate)) == xs
  {
    KeepEverything(xs, ds, Search(keyword, dueDate));
  }

  /** Keyword and due date combine with AND: the search is the due-date search of the keyword search. */
  lemma {:induction false} SearchIsConjunction<T>(xs: seq<T>, ds: seq<TaskData>,
                                                   keyword: Option<string>, dueDate: Option<string>)
    requires |xs| == |ds|
    ensures |Keep(xs, ds, Search(keyword, None))| == |Keep(ds, ds, Search(keyword, None))|
    ensures Keep(xs, ds, Search(keyword, dueDate))
         == Keep(Keep(xs, ds, Search(keyword, None)), Keep(ds, ds, Search(keyword, None)), Search(None, dueDate))
  {
    KeepLength(xs, ds, ds, Search(keyword, None));
    if xs != [] {
      SearchIsConjunction(xs[1..], ds[1..], keyword, dueDate);
      KeepLength(xs[1..], ds[1..], ds[1..], Search(keyword, None));
      var kx := Keep(xs[1..], ds[1..], Search(keyword, None));
      var kd := Keep(ds[1..], ds[1..], Search(keyword, None));
      if Accepts(Search(keyword, None), ds[0]) {
        assert Keep(xs, ds, Search(keyword, None)) == [xs[0]] + kx;
        assert Keep(ds, ds, Search(keyword, None)) == [ds[0]] + kd;
        assert ([xs[0]] + kx)[1..] == kx && ([ds[0]] + kd)[1..] == kd;
      } else {
        assert Keep(xs, ds, Search(keyword, None)) == kx;
        assert Keep(ds, ds, Search(keyword, None)) == kd;
      }
    }
  }

  /** The keyword is compared case-insensitively: searching for it or for its lower case gives the same tasks. */
  lemma SearchCaseInsensitive<T>(xs: seq<T>, ds: seq<TaskData>, keyword: string, dueDate: Option<string>)
    requires |xs| == |ds|
    ensures Keep(xs, ds, Search(Some(keyword), dueDate)) == Keep(xs, ds, Search(Some(Lower(keyword)), dueDate))
  {
    LowerIdempotent(keyword);
    KeepCongruent(xs, ds, Search(Some(keyword), dueDate), Search(Some(Lower(keyword)), dueDate));
  }

  /** Two keywords that differ only in the case of their letters select the same tasks. */
  lemma SearchIgnoresCase<T>(xs: seq<T>, ds: seq<TaskData>, k1: string, k2: string, dueDate: Option<string>)
    requires |xs| == |ds| && SameIgnoringCase(k1, k2)
    ensures Keep(xs, ds, Search(Some(k1), dueDate)) == Keep(xs, ds, Search(Some(k2), dueDate))
  {
    SameIgnoringCaseLower(k1, k2);
    KeepCongruent(xs, ds, Search(Some(k1), dueDate), Search(Some(k2), dueDate));
  }

  /** Searching for "PYTHON" finds exactly the tasks a search for "Python" finds. */
  lemma UpperCaseKeyword<T>(xs: seq<T>, ds: seq<TaskData>, dueDate: Option<string>)
    requires |xs| == |ds|
    ensures Keep(xs, ds, Search(Some("PYTHON"), dueDate)) == Keep(xs, ds, Search(Some("Python"), dueDate))
  {
    assert SameIgnoringCase("PYTHON", "Python");
    SearchIgnoresCase(xs, ds, "PYTHON", "Python", dueDate);
  }

  /**
   * Pending and completed tasks partition the list: every task is in exactly one of
   * the two listings, so their lengths add up to the length of the list.
   */
  lemma {:induction false} PendingCompletedPartition<T>(xs: seq<T>, ds: seq<TaskData>)
    requires |xs| == |ds|
    ensures |Keep(xs, ds, PendingOnly)| + |Keep(xs, ds, CompletedOnly)| == |xs|
    ensures multiset(Keep(xs, ds, PendingOnly)) + multiset(Keep(xs, ds, CompletedOnly)) == multiset(xs)
  {
    if xs != [] {
      PendingCompletedPartition(xs[1..], ds[1..]);
      assert xs == [xs[0]] + xs[1..];
    }
  }

  /** The index of the first task whose id is `id`: the task `get_task_by_id` returns. */
  function FindFirst(ds: seq<TaskData>, id: string): (r: Option<nat>)
    ensures r.None? <==> forall j :: 0 <= j < |ds| ==> ds[j].taskId != id
    ensures r.Some? ==> r.value < |ds| && ds[r.value].taskId == id
                        && forall j :: 0 <= j < r.value ==> ds[j].taskId != id
  {
    if ds == [] then None
    else if ds[0].taskId == id then Some(0)
    else
      var r := FindFirst(ds[1..], id);
      assert forall j :: 1 <= j < |ds| ==> ds[j] == ds[1..][j - 1];
      if r.Some? then Some(r.value + 1) else None
  }

  /** Lists with the same ids, position by position, have the same first match. */
  lemma {:induction false} FindFirstSameIds(ds: seq<TaskData>, es: seq<TaskData>, id: string)
    requires |ds| == |es| && forall j :: 0 <= j < |ds| ==> ds[j].taskId == es[j].taskId
    ensures FindFirst(ds, id) == FindFirst(es, id)
  {
    if ds != [] && ds[0].taskId != id {
      FindFirstSameIds(ds[1..], es[1..], id);
    }
  }

  /** The values after `mark_task_completed(id)` at clock reading `now`. */
  function CompleteFirst(ds: seq<TaskData>, id: string, now: string): (r: seq<TaskData>)
    ensures |r| == |ds| && forall j :: 0 <= j < |ds| ==> r[j].taskId == ds[j].taskId
  {
    match FindFirst(ds, id)
    case None => ds
    case Some(i) => ds[i := MarkedCompleted(ds[i], now)]
  }

  /**
   * Completion touches the first match only: it is completed with `updated_at = now`,
   * every other field of it and every other task is unchanged, and an absent id
   * changes nothing.
   */
  lemma CompleteFirstEffect(ds: seq<TaskData>, id: string, now: string)
    ensures FindFirst(ds, id).None? ==> CompleteFirst(ds, id, now) == ds
    ensures FindFirst(ds, id).Some? ==>
              var i := FindFirst(ds, id).value;
              && CompleteFirst(ds, id, now)[i].completed
              && CompleteFirst(ds, id, now)[i].updatedAt == now
              && CompleteFirst(ds, id, now)[i].(completed := ds[i].completed, updatedAt := ds[i].updatedAt) == ds[i]
              && forall j :: 0 <= j < |ds| && j != i ==> CompleteFirst(ds, id, now)[j] == ds[j]
  {
  }

  /**
   * Completing again finds the same task and gives the state of one completion at the
   * later clock reading: a repeat call succeeds and is otherwise a no-op.
   */
  lemma CompleteFirstIdempotent(ds: seq<TaskData>, id: string, now1: string, now2: string)
    ensures FindFirst(CompleteFirst(ds, id, now1), id) == FindFirst(ds, id)
    ensures CompleteFirst(CompleteFirst(ds, id, now1), id, now2) == CompleteFirst(ds, id, now2)
  {
    FindFirstSameIds(CompleteFirst(ds, id, now1), ds, id);
  }

  function RemoveAt<T>(s: seq<T>, i: nat): (r: seq<T>)
    requires i < |s|
    ensures |r| == |s| - 1
  {
    s[..i] + s[i + 1..]
  }

  /** The values after `delete_task(id)`. */
  function RemoveFirst(ds: seq<TaskData>, id: string): seq<TaskData> {
    match FindFirst(ds, id)
    case None => ds
    case Some(i) => RemoveAt(ds, i)
  }

  /** How many tasks have id `id`. */
  function CountId(ds: seq<TaskData>, id: string): (n: nat)
    ensures n <= |ds|
    ensures n == 0 <==> FindFirst(ds, id).None?
  {
    if ds == [] then 0
    else
      assert FindFirst(ds, id).None? <==> ds[0].taskId != id && FindFirst(ds[1..], id).None?;
      (if ds[0].taskId == id then 1 else 0) + CountId(ds[1..], id)
  }

  lemma {:induction false} CountIdSplit(a: seq<TaskData>, b: seq<TaskData>, id: string)
    ensures CountId(a + b, id) == CountId(a, id) + CountId(b, id)
  {
    if a == [] {
      assert a + b == b;
    } else {
      assert (a + b)[0] == a[0] && (a + b)[1..] == a[1..] + b;
      CountIdSplit(a[1..], b, id);
    }
  }

  /**
   * Deletion removes exactly the first task with that id: one task fewer, one
   * occurrence of the id fewer, the others in their order; an absent id changes nothing.
   */
  lemma RemoveFirstEffect(ds: seq<TaskData>, id: string)
    ensures FindFirst(ds, id).None? ==> RemoveFirst(ds, id) == ds
    ensures FindFirst(ds, id).Some? ==>
              var i := FindFirst(ds, id).value;
              && RemoveFirst(ds, id) == ds[..i] + ds[i + 1..]
              && |RemoveFirst(ds, id)| == |ds| - 1
              && CountId(RemoveFirst(ds, id), id) == CountId(ds, id) - 1
              && multiset(RemoveFirst(ds, id)) + multiset{ds[i]} == multiset(ds)
              && IsSubsequence(RemoveFirst(ds, id), ds)
  {
    if FindFirst(ds, id).Some? {
      var i := FindFirst(ds, id).value;
      RemoveAtCountId(ds, i, id);
      RemoveAtMultiset(ds, i);
      RemoveAtIsSubsequence(ds, i);
    }
  }

  /** Dropping the first task with `id` leaves one occurrence of it fewer. */
  lemma RemoveAtCountId(ds: seq<TaskData>, i: nat, id: string)
    requires i < |ds| && ds[i].taskId == id
    ensures CountId(RemoveAt(ds, i), id) == CountId(ds, id) - 1
  {
    assert ds == ds[..i] + [ds[i]] + ds[i + 1..];
    CountIdSplit(ds[..i] + [ds[i]], ds[i + 1..], id);
    CountIdSplit(ds[..i], [ds[i]], id);
    CountIdSplit(ds[..i], ds[i + 1..], id);
  }

  lemma RemoveAtMultiset<T>(s: seq<T>, i: nat)
    requires i < |s|
    ensures multiset(RemoveAt(s, i)) + multiset{s[i]} == multiset(s)
  {
    assert s == s[..i] + [s[i]] + s[i + 1..];
  }

  lemma {:induction false} RemoveAtIsSubsequence<T>(s: seq<T>, i: nat)
    requires i < |s|
    ensures IsSubsequence(RemoveAt(s, i), s)
  {
    if i == 0 {
      SubsequenceReflexive(s[1..]);
      SubsequenceOfTail(s[1..], s);
      assert RemoveAt(s, 0) == s[1..];
    } else {
      RemoveAtIsSubsequence(s[1..], i - 1);
      assert RemoveAt(s, i) == [s[0]] + RemoveAt(s[1..], i - 1);
      assert ([s[0]] + RemoveAt(s[1..], i - 1))[1..] == RemoveAt(s[1..], i - 1);
    }
  }

  lemma {:induction false} SubsequenceReflexive<T>(s: seq<T>)
    ensures IsSubsequence(s, s)
  {
    if s != [] {
      SubsequenceReflexive(s[1..]);
    }
  }

  /** When an id is held by one task only, deleting it twice finds nothing the second time. */
  lemma DeleteTwiceNotFound(ds: seq<TaskData>, id: string)
    requires CountId(ds, id) == 1
    ensures FindFirst(RemoveFirst(ds, id), id).None?
  {
    RemoveFirstEffect(ds, id);
  }

  /** Keep on a list of three, spelled out. */
  lemma KeepThree<T>(xs: seq<T>, ds: seq<TaskData>, c: Criterion)
    requires |xs| == 3 && |ds| == 3
    ensures Keep(xs, ds, c) == (if Accepts(c, ds[0]) then [xs[0]] else [])
                               + (if Accepts(c, ds[1]) then [xs[1]] else [])
                               + (if Accepts(c, ds[2]) then [xs[2]] else [])
  {
    assert xs[..0] == [] && ds[..0] == [];
    KeepPrefixStep(xs, ds, c, 0);
    KeepPrefixStep(xs, ds, c, 1);
    KeepPrefixStep(xs, ds, c, 2);
    assert xs[..3] == xs && ds[..3] == ds;
  }

  /** Where the keyword `Python` of the search test occurs, case-insensitively. */
  lemma PythonKeyword()
    ensures Contains(Lower("Python Task"), Lower("Python"))
    ensures Contains(Lower("Python Project"), Lower("Python"))
    ensures !Contains(Lower("Java Task"), Lower("Python")) && !Contains(Lower("Learn Java"), Lower("Python"))
  {
    var k := Lower("Python");
    assert k == "python";
    assert Lower("Python Task") == "python task" && OccursAt(Lower("Python Task"), k, 0);
    assert Lower("Python Project") == "python project" && OccursAt(Lower("Python Project"), k, 0);
    assert Lower("Java Task") == "java task";
    assert Lower("Learn Java") == "learn java";
    MissingFirstChar(Lower("Java Task"), k);
    MissingFirstChar(Lower("Learn Java"), k);
  }

  /**
   * The three tasks of the search test: the keyword `Python` and the due date
   * `2024-01-15` each select the first and third, and so do the two together.
   */
  lemma SearchExamples(ids: seq<string>, stamp: string)
    requires |ids| == 3
    ensures var ds := [TaskData(ids[0], "Python Task", "Learn Python", "2024-01-15", false, stamp, stamp),
                       TaskData(ids[1], "Java Task", "Learn Java", "2024-01-16", false, stamp, stamp),
                       TaskData(ids[2], "Python Project", "Build Python app", "2024-01-15", false, stamp, stamp)];
            && Keep(ds, ds, Search(Some("Python"), None)) == [ds[0], ds[2]]
            && Keep(ds, ds, Search(None, Some("2024-01-15"))) == [ds[0], ds[2]]
            && Keep(ds, ds, Search(Some("Python"), Some("2024-01-15"))) == [ds[0], ds[2]]
  {
    var ds := [TaskData(ids[0], "Python Task", "Learn Python", "2024-01-15", false, stamp, stamp),
               TaskData(ids[1], "Java Task", "Learn Java", "2024-01-16", false, stamp, stamp),
               TaskData(ids[2], "Python Project", "Build Python app", "2024-01-15", false, stamp, stamp)];
    PythonKeyword();
    var c1, c2, c3 := Search(Some("Python"), None), Search(None, Some("2024-01-15")), Search(Some("Python"), Some("2024-01-15"));
    assert Accepts(c1, ds[0]) && !Accepts(c1, ds[1]) && Accepts(c1, ds[2]);
    assert Accepts(c2, ds[0]) && !Accepts(c2, ds[1]) && Accepts(c2, ds[2]);
    assert Accepts(c3, ds[0]) && !Accepts(c3, ds[1]) && Accepts(c3, ds[2]);
    KeepThree(ds, ds, Search(Some("Python"), None));
    KeepThree(ds, ds, Search(None, Some("2024-01-15")));
    KeepThree(ds, ds, Search(Some("Python"), Some("2024-01-15")));
  }
}
