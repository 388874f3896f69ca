/**
 The state of the background-jobs panel as a value, and each proxy operation
 of `src/libs/backgroundjobs.c` as a transition on that value.

 The state has three parts: the job table `d->jobs` (key to job record), the
 ordered children of `d->jobbox` (see JobBox), and whether `d->jobbox` is shown.
 The class in module BackgroundJobs keeps these parts in fields and proves each
 of its methods equal to the transition defined here.
 */
module Registry {
  import opened JobBox

  datatype Option<T> = None | Some(value: T)

  /** The `dt_job_t *` a cancel control is bound to; only its identity matters. */
  type JobRef = nat

  /** One `dt_bgjob_t` together with what its row widget shows.
      `attached` stands for `GTK_IS_WIDGET(j->widget)`: the row is still a
      child of the panel. `bar` is the progress bar and its fraction, present
      only for jobs created with type 0. `cancels` lists the cancel controls
      packed into the row, in packing order, by the job each one cancels. */
  datatype Job = Job(
    kind: int,
    message: string,
    attached: bool,
    bar: Option<real>,
    cancels: seq<JobRef>)

  datatype State = State(jobs: map<Key, Job>, rows: seq<Key>, shown: bool)

  /** What every reachable state satisfies: a row on the panel is exactly an
      attached job of the table, no row is packed twice, the panel is shown
      exactly when it has rows, and only type-0 jobs have a progress bar. */
  ghost predicate Consistent(s: State)
  {
    && Distinct(s.rows)
    && (forall k :: k in s.rows ==> k in s.jobs && s.jobs[k].attached)
    && (forall k :: k in s.jobs && s.jobs[k].attached ==> k in s.rows)
    && (s.shown <==> s.rows != [])
    && (forall k :: k in s.jobs ==> (s.jobs[k].bar.Some? <==> s.jobs[k].kind == 0))
  }

  /** `gui_init`: an empty table and an empty box that is not shown
      (`gtk_widget_set_no_show_all` keeps the host from showing it). */
  function Initial(): (s: State)
    ensures s.jobs == map[] && s.rows == [] && !s.shown
    ensures Consistent(s)
  {
    State(map[], [], false)
  }

  /** A new record: attached, no cancel control yet, and a progress bar at
      zero exactly when the type is 0. */
  function NewJob(kind: int, message: string): Job
  {
    Job(kind, message, true, if kind == 0 then Some(0.0) else None, [])
  }

  /** `_lib_backgroundjobs_create` once the fresh key has been chosen: the new
      record joins the table, its row is packed at index 1 and the panel is
      shown. */
  function Created(s: State, key: Key, kind: int, message: string): (r: State)
    requires key !in s.jobs
    ensures r.jobs.Keys == s.jobs.Keys + {key}
    ensures forall k :: k in s.jobs ==> r.jobs[k] == s.jobs[k]
    ensures r.jobs[key].kind == kind && r.jobs[key].message == message
    ensures r.jobs[key].attached && r.jobs[key].cancels == []
    ensures r.jobs[key].bar.Some? <==> kind == 0
    ensures |r.rows| == |s.rows| + 1 && r.rows[NewRowIndex(|s.rows|)] == key
    ensures RemoveFirst(r.rows, key) == s.rows
    ensures r.shown
    ensures Consistent(s) ==> Consistent(r)
  {
    var r := State(s.jobs[key := NewJob(kind, message)], InsertRow(s.rows, key), true);
    assert Consistent(s) ==> Consistent(r) by {
      if Consistent(s) {
        assert key !in s.rows;
      }
    }
    r
  }

  /** Taking the row of a known job off the panel (source lines 167-172 and
      221-226): the widget is removed only if it is still a child, and the
      panel is hidden if that leaves it without children. */
  function Unpack(s: State, key: Key): (r: State)
    requires key in s.jobs
    ensures r.jobs == s.jobs
    ensures !s.jobs[key].attached ==> r.rows == s.rows
    ensures s.jobs[key].attached && key in s.rows ==> |r.rows| == |s.rows| - 1
    ensures forall x :: x in r.rows ==> x in s.rows
    ensures r.rows == [] ==> !r.shown
    ensures r.rows != [] ==> r.shown == s.shown
    ensures Consistent(s) ==>
      && r.rows == RemoveFirst(s.rows, key)
      && key !in r.rows && Distinct(r.rows)
      && (forall x :: x in r.rows <==> x in s.rows && x != key)
      && (r.shown <==> r.rows != [])
  {
    var rows := if s.jobs[key].attached then RemoveFirst(s.rows, key) else s.rows;
    assert Consistent(s) ==> Distinct(rows) && (forall x :: x in rows <==> x in s.rows && x != key) by {
      if Consistent(s) {
        RemoveFirstDistinct(s.rows, key);
      }
    }
    State(s.jobs, rows, s.shown && rows != [])
  }

  /** `_lib_backgroundjobs_destroy`. An unknown key changes nothing; a known
      key loses its record and its row, and the panel is hidden exactly when
      no row is left. */
  function Destroyed(s: State, key: Key): (r: State)
    ensures key !in r.jobs
    ensures r.jobs == s.jobs - {key}
    ensures key !in s.jobs ==> r == s
    ensures key in s.jobs ==> (r.shown <==> s.shown && r.rows != [])
    ensures Consistent(s) ==> Consistent(r) && r.rows == RemoveFirst(s.rows, key)
  {
    if key !in s.jobs then s
    else
      var u := Unpack(s, key);
      var r := State(s.jobs - {key}, u.rows, u.shown);
      r
  }

  /** `_lib_backgroundjobs_set_cancellable`. Nothing happens once the
      application has stopped running or for an unknown key; otherwise one
      more cancel control, bound to `job`, is packed into the job's row. */
  function CancellableSet(s: State, running: bool, key: Key, job: JobRef): (r: State)
    ensures !running || key !in s.jobs ==> r == s
    ensures r.jobs.Keys == s.jobs.Keys && r.rows == s.rows && r.shown == s.shown
    ensures forall k :: k in s.jobs && k != key ==> r.jobs[k] == s.jobs[k]
    ensures running && key in s.jobs ==>
      r.jobs[key] == s.jobs[key].(cancels := s.jobs[key].cancels + [job])
    ensures Consistent(s) ==> Consistent(r)
  {
    if !running || key !in s.jobs then s
    else
      var j := s.jobs[key];
      State(s.jobs[key := j.(cancels := j.cancels + [job])], s.rows, s.shown)
  }

  /** `_lib_backgroundjobs_progress`. Nothing happens once the application
      has stopped running or for an unknown key. A fraction of 1.0 or more
      takes the row off the panel but keeps the record in the table; a smaller
      fraction is shown by the progress bar of a type-0 job and ignored for
      any other type. */
  function Progressed(s: State, running: bool, key: Key, fraction: real): (r: State)
    ensures !running || key !in s.jobs ==> r == s
    ensures r.jobs.Keys == s.jobs.Keys
    ensures forall k :: k in s.jobs && k != key ==> r.jobs[k] == s.jobs[k]
    ensures running && key in s.jobs && fraction >= 1.0 ==>
      && r.jobs[key] == s.jobs[key].(attached := false)
      && (r.shown <==> s.shown && r.rows != [])
      && (Consistent(s) ==> r.rows == RemoveFirst(s.rows, key))
    ensures running && key in s.jobs && fraction < 1.0 ==>
      && r.rows == s.rows && r.shown == s.shown
      && r.jobs[key] == if s.jobs[key].kind == 0 then s.jobs[key].(bar := Some(fraction)) else s.jobs[key]
    ensures Consistent(s) ==> Consistent(r)
  {
    if !running || key !in s.jobs then s
    else
      var j := s.jobs[key];
      if fraction >= 1.0 then
        var u := Unpack(s, key);
        var r := State(s.jobs[key := j.(attached := false)], u.rows, u.shown);
        r
      else if j.kind == 0 then
        State(s.jobs[key := j.(bar := Some(fraction))], s.rows, s.shown)
      else s
  }

  /** A later call on one and the same key. */
  datatype Call = Destroy | SetCancellable(job: JobRef) | Progress(fraction: real)

  function Apply(s: State, running: bool, key: Key, c: Call): State
  {
    match c
    case Destroy => Destroyed(s, key)
    case SetCancellable(job) => CancellableSet(s, running, key, job)
    case Progress(fraction) => Progressed(s, running, key, fraction)
  }

  /** The calls applied in order. */
  function Replay(s: State, running: bool, key: Key, calls: seq<Call>): State
    decreases |calls|
  {
    if calls == [] then s else Replay(Apply(s, running, key, calls[0]), running, key, calls[1..])
  }

  /** A destroyed key is dead for good: whatever calls follow on it, with the
      application running or not, the panel and the table stay as the destroy
      left them. */
  lemma {:induction false} DestroyedKeyIsInert(s: State, running: bool, key: Key, calls: seq<Call>)
    ensures Replay(Destroyed(s, key), running, key, calls) == Destroyed(s, key)
  {
    if calls != [] {
      DestroyedKeyIsInert(s, running, key, calls[1..]);
    }
  }

  /** Each call to set_cancellable adds its own control: two calls leave two
      controls, in call order. */
  lemma CancelControlsAccumulate(s: State, key: Key, first: JobRef, second: JobRef)
    requires key in s.jobs
    ensures var r := CancellableSet(CancellableSet(s, true, key, first), true, key, second);
      r.jobs[key].cancels == s.jobs[key].cancels + [first, second]
  {
  }

  /** A completed job (fraction at least 1.0) is off the panel but still in the
      table; a later destroy on its key frees the record and leaves the panel
      exactly as destroying it directly would have. */
  lemma CompletionThenDestroy(s: State, key: Key, fraction: real)
    requires Consistent(s) && key in s.jobs && fraction >= 1.0
    ensures var p := Progressed(s, true, key, fraction);
      && key in p.jobs && key !in p.rows
      && Destroyed(p, key) == Destroyed(s, key)
  {
  }

  /** The panel is shown while a job row is on it: two jobs created from the
      initial state show it, destroying both hides it, a third shows it
      again. */
  lemma ShownWhileRowsRemain(a: Key, b: Key, c: Key, kind: int, message: string)
    requires a != b
    ensures var s1 := Created(Created(Initial(), a, kind, message), b, kind, message);
      var s2 := Destroyed(Destroyed(s1, a), b);
      && s1.shown
      && s2.jobs == map[] && !s2.shown
      && Created(s2, c, kind, message).shown
  {
  }
}
