/** The job list page (src/pages/Dashboard.tsx): the view-model that owns the
    fetched jobs, the selected job, the sidebar flag and the low-score filter,
    and the store it reads from and mutates. The store's query cache is modelled
    as "re-run Load"; every network outcome is a parameter. */
module DashboardPage {
  import opened Wrappers
  import opened Toasts
  import opened Sequences
  import opened JobCard
  import opened JobDetailSidebar

  const MarkedNotice := Notice("Success", "Job marked as applied")
  const DeletedNotice := Notice("Deleted", "Job removed from your list")

  // ---------------------------------------------------------------------------
  // Ordering of a Load: `order("created_at", { ascending: false })`

  /** Newest first: `created_at` never increases along the list. */
  predicate NewestFirstOrder(s: seq<Job>)
  {
    forall i, j :: 0 <= i < j < |s| ==> s[i].created_at >= s[j].created_at
  }

  /** Puts `x` in front of the first row that is not newer than it. */
  function InsertByDate(x: Job, s: seq<Job>): (r: seq<Job>)
    requires NewestFirstOrder(s)
    ensures NewestFirstOrder(r)
    ensures multiset(r) == multiset(s) + multiset{x}
    decreases |s|
  {
    if s == [] || s[0].created_at <= x.created_at then
      PrependKeepsOrder(x, s);
      [x] + s
    else
      var tail := InsertByDate(x, s[1..]);
      NoNewerThanHead(s[0], s[1..], x, tail);
      PrependKeepsOrder(s[0], tail);
      assert s == [s[0]] + s[1..];
      [s[0]] + tail
  }

  /** A row at least as new as the first row of a newest-first list can go in front of it. */
  lemma PrependKeepsOrder(h: Job, t: seq<Job>)
    requires NewestFirstOrder(t)
    requires t != [] ==> t[0].created_at <= h.created_at
    ensures NewestFirstOrder([h] + t)
  {
    var r := [h] + t;
    forall i, j | 0 <= i < j < |r| ensures r[i].created_at >= r[j].created_at {
      if i == 0 {
        assert r[j] == t[j - 1];
        assert t[0].created_at >= t[j - 1].created_at;
      } else {
        assert r[i] == t[i - 1] && r[j] == t[j - 1];
      }
    }
  }

  /** If `h` is at least as new as `x` and as every row of `rest`, it is at least
      as new as the first row of any rearrangement of `rest` plus `x`. */
  lemma NoNewerThanHead(h: Job, rest: seq<Job>, x: Job, tail: seq<Job>)
    requires x.created_at <= h.created_at
    requires forall i :: 0 <= i < |rest| ==> rest[i].created_at <= h.created_at
    requires multiset(tail) == multiset(rest) + multiset{x}
    ensures tail != [] ==> tail[0].created_at <= h.created_at
  {
    if tail != [] {
      assert tail[0] in multiset(tail);
      if tail[0] != x {
        assert tail[0] in multiset(rest);
        var i :| 0 <= i < |rest| && rest[i] == tail[0];
      }
    }
  }

  /** The rows of the store as a Load returns them: the same rows, newest first. */
  function NewestFirst(rows: seq<Job>): (r: seq<Job>)
    ensures NewestFirstOrder(r)
    ensures multiset(r) == multiset(rows)
  {
    if rows == [] then []
    else
      assert rows == [rows[0]] + rows[1..];
      InsertByDate(rows[0], NewestFirst(rows[1..]))
  }

  // ---------------------------------------------------------------------------
  // Row updates the store performs

  /** `update({ status }).eq("id", id)`: every row with that id gets the new
      status; every other row, and every other field, is unchanged. */
  function SetStatus(rows: seq<Job>, id: int, status: string): (r: seq<Job>)
    ensures |r| == |rows|
    ensures forall i :: 0 <= i < |rows| ==>
      r[i] == if rows[i].id == id then rows[i].(status := status) else rows[i]
  {
    if rows == [] then []
    else
      var head := if rows[0].id == id then rows[0].(status := status) else rows[0];
      [head] + SetStatus(rows[1..], id, status)
  }

  /** The rows a `delete().eq("id", id)` keeps. */
  function OtherThan(id: int): Job -> bool
  {
    (j: Job) => j.id != id
  }

  // ---------------------------------------------------------------------------
  // The displayed list

  function IsHighScore(j: Job): bool
  {
    j.score >= 50
  }

  /** `filteredJobs`: nothing before the first Load, every job without the filter,
      and the jobs scoring at least 50 with it. */
  function VisibleJobs(jobs: Option<seq<Job>>, hideLowScores: bool): (r: seq<Job>)
    ensures jobs.None? ==> r == []
    ensures jobs.Some? && !hideLowScores ==> r == jobs.value
    ensures jobs.Some? && hideLowScores ==> forall j :: j in r <==> j in jobs.value && j.score >= 50
    ensures jobs.Some? && hideLowScores ==> r == Filter(jobs.value, IsHighScore)
  {
    match jobs
    case None => []
    case Some(s) => if hideLowScores then Filter(s, IsHighScore) else s
  }

  /** The notice an insert notification raises names the new job and its company. */
  function InsertNotice(job: Job): (n: Notice)
    ensures n.title == "New Job Added"
    ensures |n.description| == |job.title| + 4 + |job.company|
    ensures n.description[..|job.title|] == job.title
    ensures n.description[|n.description| - |job.company|..] == job.company
  {
    Notice("New Job Added", job.title + " at " + job.company)
  }

  // ---------------------------------------------------------------------------
  // The store and the view-model

  /** The external job table, as an ordered sequence of rows in store order. */
  class JobStore {
    var rows: seq<Job>

    constructor (rows: seq<Job>)
      ensures this.rows == rows
    {
      this.rows := rows;
    }

    /** `select("*").order("created_at", { ascending: false })`; `None` when the query fails. */
    method SelectNewestFirst(fails: bool) returns (r: Option<seq<Job>>)
      ensures fails ==> r.None?
      ensures !fails ==> r == Some(NewestFirst(rows))
      ensures !fails ==> r.Some? && NewestFirstOrder(r.value) && multiset(r.value) == multiset(rows)
    {
      r := if fails then None else Some(NewestFirst(rows));
    }

    /** `update({ status }).eq("id", id)`; returns false, changing nothing, when it fails. */
    method UpdateStatus(id: int, status: string, fails: bool) returns (ok: bool)
      modifies this
      ensures ok == !fails
      ensures rows == if ok then SetStatus(old(rows), id, status) else old(rows)
    {
      ok := !fails;
      if ok {
        rows := SetStatus(rows, id, status);
      }
    }

    /** `delete().eq("id", id)`; returns false, changing nothing, when it fails. */
    method Delete(id: int, fails: bool) returns (ok: bool)
      modifies this
      ensures ok == !fails
      ensures rows == if ok then Filter(old(rows), OtherThan(id)) else old(rows)
    {
      ok := !fails;
      if ok {
        rows := Filter(rows, OtherThan(id));
      }
    }
  }

  class Dashboard {
    const store: JobStore
    /** The last successfully loaded list; `None` before the first Load succeeds. */
    var jobs: Option<seq<Job>>
    /** A copy of the clicked job, not a key: a later Load does not refresh it. */
    var selectedJob: Option<Job>
    var isSidebarOpen: bool
    var hideLowScores: bool

    /** The sidebar is only ever opened together with a selection. */
    predicate Valid()
      reads this
    {
      isSidebarOpen ==> selectedJob.Some?
    }

    /** The jobs the page lists. */
    function Displayed(): seq<Job>
      reads this
    {
      VisibleJobs(jobs, hideLowScores)
    }

    constructor (store: JobStore)
      ensures this.store == store
      ensures jobs == None && selectedJob == None && !isSidebarOpen && !hideLowScores
      ensures Valid()
    {
      this.store := store;
      jobs, selectedJob := None, None;
      isSidebarOpen, hideLowScores := false, false;
    }

    /** Fetch the jobs; a failed query keeps the previous list. */
    method Load(fails: bool)
      requires Valid()
      modifies this`jobs
      ensures jobs == if fails then old(jobs) else Some(NewestFirst(store.rows))
      ensures Valid()
    {
      var r := store.SelectNewestFirst(fails);
      if r.Some? {
        jobs := r;
      }
    }

    /** `handleJobClick`: select a copy of the job and open the sidebar. */
    method HandleJobClick(job: Job)
      modifies this`selectedJob, this`isSidebarOpen
      ensures selectedJob == Some(job) && isSidebarOpen
      ensures Valid()
    {
      selectedJob := Some(job);
      isSidebarOpen := true;
    }

    /** The sidebar's `onClose`: hide the panel, keep the selection. */
    method Close()
      modifies this`isSidebarOpen
      ensures !isSidebarOpen
      ensures Valid()
    {
      isSidebarOpen := false;
    }

    /** The "Hide Low Scores" switch. */
    method SetHideLowScores(checked: bool)
      requires Valid()
      modifies this`hideLowScores
      ensures hideLowScores == checked
      ensures Valid()
    {
      hideLowScores := checked;
    }

    /** The mark-applied mutation: update the row, then on success re-fetch and
        raise a notice. A failed update changes nothing and raises no notice. */
    method MarkApplied(id: int, updateFails: bool, reloadFails: bool) returns (notice: Option<Notice>)
      requires Valid()
      modifies this`jobs, store
      ensures Valid()
      ensures store.rows == if updateFails then old(store.rows) else SetStatus(old(store.rows), id, "applied")
      ensures jobs == if updateFails || reloadFails then old(jobs) else Some(NewestFirst(store.rows))
      ensures notice == if updateFails then None else Some(MarkedNotice)
    {
      var ok := store.UpdateStatus(id, "applied", updateFails);
      if ok {
        Load(reloadFails);
        notice := Some(MarkedNotice);
      } else {
        notice := None;
      }
    }

    /** The delete mutation: remove the row, then on success re-fetch and raise a
        notice. A failed delete changes nothing and raises no notice. */
    method Delete(id: int, deleteFails: bool, reloadFails: bool) returns (notice: Option<Notice>)
      requires Valid()
      modifies this`jobs, store
      ensures Valid()
      ensures store.rows == if deleteFails then old(store.rows) else Filter(old(store.rows), OtherThan(id))
      ensures jobs == if deleteFails || reloadFails then old(jobs) else Some(NewestFirst(store.rows))
      ensures notice == if deleteFails then None else Some(DeletedNotice)
    {
      var ok := store.Delete(id, deleteFails);
      if ok {
        Load(reloadFails);
        notice := Some(DeletedNotice);
      } else {
        notice := None;
      }
    }

    /** The insert-notification handler: always re-fetch and name the new job,
        whatever the filter. */
    method OnInsert(inserted: Job, reloadFails: bool) returns (notice: Notice)
      requires Valid()
      modifies this`jobs
      ensures Valid()
      ensures jobs == if reloadFails then old(jobs) else Some(NewestFirst(store.rows))
      ensures notice == InsertNotice(inserted)
    {
      Load(reloadFails);
      notice := InsertNotice(inserted);
    }

    /** The sidebar's "Mark as Applied" button: `onMarkApplied(job.id)` then
        `onClose()` on the selected copy. The button exists only while the sidebar
        renders a job; while disabled, a click does nothing. */
    method SidebarMarkAppliedClick(updateFails: bool, reloadFails: bool) returns (notice: Option<Notice>)
      requires selectedJob.Some?
      modifies this`jobs, this`isSidebarOpen, store
      ensures selectedJob == old(selectedJob) && Valid()
      ensures MarkAppliedDisabled(selectedJob.value) ==>
        isSidebarOpen == old(isSidebarOpen) && jobs == old(jobs) && store.rows == old(store.rows) && notice == None
      ensures !MarkAppliedDisabled(selectedJob.value) ==>
        && !isSidebarOpen
        && store.rows == (if updateFails then old(store.rows) else SetStatus(old(store.rows), selectedJob.value.id, "applied"))
        && jobs == (if updateFails || reloadFails then old(jobs) else Some(NewestFirst(store.rows)))
        && notice == (if updateFails then None else Some(MarkedNotice))
    {
      var job := selectedJob.value;
      if MarkAppliedDisabled(job) {
        notice := None;
      } else {
        notice := MarkApplied(job.id, updateFails, reloadFails);
        Close();
      }
    }

    /** The sidebar's "Delete" button: `onDelete(job.id)` then `onClose()`, so the
        sidebar ends closed whatever happened; the stale selection is kept. */
    method SidebarDeleteClick(deleteFails: bool, reloadFails: bool) returns (notice: Option<Notice>)
      requires selectedJob.Some?
      modifies this`jobs, this`isSidebarOpen, store
      ensures selectedJob == old(selectedJob) && !isSidebarOpen && Valid()
      ensures store.rows == if deleteFails then old(store.rows) else Filter(old(store.rows), OtherThan(selectedJob.value.id))
      ensures jobs == if deleteFails || reloadFails then old(jobs) else Some(NewestFirst(store.rows))
      ensures notice == if deleteFails then None else Some(DeletedNotice)
    {
      notice := Delete(selectedJob.value.id, deleteFails, reloadFails);
      Close();
    }
  }

  // ---------------------------------------------------------------------------
  // What a re-fetch after a mutation lists

  /** After marking `id` applied, the re-fetched list shows every row with that id
      as applied, and still lists every other row unchanged. */
  lemma {:induction false} ListedAfterMarkApplied(rows: seq<Job>, id: int)
    ensures forall j :: j in NewestFirst(SetStatus(rows, id, "applied")) && j.id == id ==> j.status == "applied"
    ensures forall j :: j in rows && j.id != id ==> j in NewestFirst(SetStatus(rows, id, "applied"))
    ensures |NewestFirst(SetStatus(rows, id, "applied"))| == |rows|
  {
    var updated := SetStatus(rows, id, "applied");
    var listed := NewestFirst(updated);
    forall j | j in listed && j.id == id ensures j.status == "applied" {
      assert j in multiset(listed);
      assert j in updated;
    }
    forall j | j in rows && j.id != id ensures j in listed {
      var i :| 0 <= i < |rows| && rows[i] == j;
      assert updated[i] == j;
      assert j in multiset(updated);
    }
    assert |listed| == |multiset(listed)| == |multiset(updated)| == |updated|;
  }

  /** After deleting `id`, the re-fetched list holds no row with that id and still
      lists every other row. */
  lemma {:induction false} ListedAfterDelete(rows: seq<Job>, id: int)
    ensures forall j :: j in NewestFirst(Filter(rows, OtherThan(id))) ==> j.id != id
    ensures forall j :: j in rows && j.id != id ==> j in NewestFirst(Filter(rows, OtherThan(id)))
  {
    var kept := Filter(rows, OtherThan(id));
    var listed := NewestFirst(kept);
    forall j | j in listed ensures j.id != id {
      assert j in multiset(listed);
      assert j in kept;
      assert OtherThan(id)(j);
    }
    forall j | j in rows && j.id != id ensures j in listed {
      assert OtherThan(id)(j);
      assert j in kept;
      assert j in multiset(kept);
    }
  }

  /** With the filter on, the page lists exactly the jobs scoring at least 50, at
      their loaded positions in ascending order. */
  lemma HiddenLowScoresKeepOrder(jobs: seq<Job>)
    ensures var r, idx := VisibleJobs(Some(jobs), true), KeptIndices(jobs, IsHighScore);
      && |r| == |idx|
      && (forall k :: 0 <= k < |r| ==> r[k] == jobs[idx[k]])
      && (forall k, l :: 0 <= k < l < |idx| ==> idx[k] < idx[l])
      && (forall i :: 0 <= i < |jobs| ==> (jobs[i].score >= 50 <==> i in idx))
  {
    FilterSelectsKeptIndices(jobs, IsHighScore);
  }

  /** Two rows stored oldest first are listed newest first. */
  lemma NewestFirstOfTwo(older: Job, newer: Job)
    requires older.created_at < newer.created_at
    ensures NewestFirst([older, newer]) == [newer, older]
  {
  }

  /** With the filter on, of a high-scoring and a low-scoring job only the first is shown. */
  lemma HideLowOfTwo(high: Job, low: Job)
    requires high.score >= 50 > low.score
    ensures VisibleJobs(Some([high, low]), true) == [high]
  {
    assert [high, low][..1] == [high] && [high][..0] == [];
  }

  /** Marking the first of two rows with distinct ids applied changes only that row. */
  lemma MarkFirstOfTwo(first: Job, second: Job)
    requires first.id != second.id
    ensures SetStatus([first, second], first.id, "applied") == [first.(status := "applied"), second]
  {
  }

  // ---------------------------------------------------------------------------
  // A client of the view-model

  /** Two rows, the newer scoring 80 and the older 40: the list is newest first
      and the filter hides the older one. */
  method LoadAndFilterScenario(newer: Job, older: Job)
    requires newer.score == 80 && newer.created_at == 2
    requires older.score == 40 && older.created_at == 1
  {
    var store := new JobStore([older, newer]);
    var d := new Dashboard(store);
    assert d.Displayed() == [];

    d.Load(false);
    NewestFirstOfTwo(older, newer);
    assert d.jobs == Some([newer, older]);
    d.SetHideLowScores(true);
    HideLowOfTwo(newer, older);
    assert d.Displayed() == [newer];
  }

  /** Marking the older row applied through the sidebar: the re-fetch shows it
      applied, the sidebar closes, and the selected copy stays stale. */
  method MarkAppliedScenario(newer: Job, older: Job)
    requires newer.id == 1 && newer.created_at == 2
    requires older.id == 2 && older.created_at == 1 && older.status == "new"
  {
    var store := new JobStore([older, newer]);
    var d := new Dashboard(store);
    d.HandleJobClick(older);
    var notice := d.SidebarMarkAppliedClick(false, false);
    assert notice == Some(MarkedNotice);
    assert !d.isSidebarOpen && d.selectedJob == Some(older);
    var applied := older.(status := "applied");
    MarkFirstOfTwo(older, newer);
    assert store.rows == [applied, newer];
    NewestFirstOfTwo(applied, newer);
    assert d.jobs == Some([newer, applied]);
    assert MarkAppliedDisabled(applied) && !MarkAppliedDisabled(d.selectedJob.value);
  }
}
