/**
 The background-jobs module of `src/libs/backgroundjobs.c` as an object whose
 fields the four proxy operations update in place.

 `jobs`, `rows` and `shown` are `d->jobs`, the children of `d->jobbox` and its
 visibility. `running` is `darktable.control->running`, which belongs to the
 host and is only read here. The GDK lock taken with `gdk_threads_enter` and
 released with `gdk_threads_leave` is a ghost counter `lockDepth` with a ghost
 log of every enter and leave. Whether the caller is the GUI thread (the
 negation of `needlock`) is passed to each operation as `onGuiThread`.
 */
module BackgroundJobs {
  import opened JobBox
  import opened Registry

  datatype LockEvent = Enter | Leave

  /** The lock traffic of one operation that does take the `needlock` path:
      a balanced enter and leave when the caller is another thread, nothing
      on the GUI thread. */
  function Bracket(onGuiThread: bool): (e: seq<LockEvent>)
    ensures onGuiThread <==> e == []
    ensures !onGuiThread ==> e[0] == Enter && e[|e| - 1] == Leave
  {
    if onGuiThread then [] else [Enter, Leave]
  }

  /** There is always a key that no live record holds. */
  lemma {:induction false} FreshKeyExists(keys: set<Key>) returns (k: Key)
    ensures k !in keys
    ensures forall x :: x in keys ==> x < k
    decreases |keys|
  {
    if keys == {} {
      k := 0;
    } else {
      var x :| x in keys;
      var b := FreshKeyExists(keys - {x});
      k := if x < b then b else x + 1;
      forall y | y in keys ensures y < k {
        if y != x {
          assert y in keys - {x};
        }
      }
    }
  }

  class JobsPanel {
    var jobs: map<Key, Job>
    var rows: seq<Key>
    var shown: bool
    var running: bool
    ghost var lockDepth: nat
    ghost var lockLog: seq<LockEvent>

    /** The three parts of the panel's state as one value. */
    function Snapshot(): State
      reads this
    {
      State(jobs, rows, shown)
    }

    /** The panel may be changed: the caller is the GUI thread or holds the
        GDK lock. */
    ghost predicate MayUpdate(onGuiThread: bool)
      reads this
    {
      onGuiThread || lockDepth > 0
    }

    /** `gui_init`: an empty job table and an empty, hidden box. */
    constructor (running: bool)
      ensures Snapshot() == Initial() && Consistent(Snapshot())
      ensures this.running == running
      ensures lockDepth == 0 && lockLog == []
    {
      jobs := map[];
      rows := [];
      shown := false;
      this.running := running;
      lockDepth := 0;
      lockLog := [];
    }

    /** `gdk_threads_enter`. */
    ghost method ThreadsEnter()
      modifies this`lockDepth, this`lockLog
      ensures lockDepth == old(lockDepth) + 1
      ensures lockLog == old(lockLog) + [Enter]
    {
      lockDepth := lockDepth + 1;
      lockLog := lockLog + [Enter];
    }

    /** `gdk_threads_leave`: only a lock that was entered can be left. */
    ghost method ThreadsLeave()
      requires lockDepth > 0
      modifies this`lockDepth, this`lockLog
      ensures lockDepth == old(lockDepth) - 1
      ensures lockLog == old(lockLog) + [Leave]
    {
      lockDepth := lockDepth - 1;
      lockLog := lockLog + [Leave];
    }

    /** `_lib_backgroundjobs_create`: the returned key was not live before;
        the table gains exactly that key, with the given type and message;
        its row sits at index 1 of the box (at the end of a box with fewer
        than two rows), the other rows keep their order and the box is shown. */
    method Create(onGuiThread: bool, kind: int, message: string) returns (key: Key)
      modifies this
      ensures key !in old(jobs)
      ensures Snapshot() == Created(old(Snapshot()), key, kind, message)
      ensures old(Consistent(Snapshot())) ==> Consistent(Snapshot())
      ensures running == old(running)
      ensures lockDepth == old(lockDepth)
      ensures lockLog == old(lockLog) + Bracket(onGuiThread)
    {
      var needlock := !onGuiThread;
      if needlock { ThreadsEnter(); }
      assert MayUpdate(onGuiThread);

      var _ := FreshKeyExists(jobs.Keys);
      key :| key !in jobs;
      jobs := jobs[key := NewJob(kind, message)];
      rows := InsertRow(rows, key);
      shown := true;

      if needlock { ThreadsLeave(); }
    }

    /** `_lib_backgroundjobs_destroy`: the record of a live key is removed
        with its row, if the row is still packed; the box is hidden when that
        leaves it empty. An unknown key changes nothing. */
    method Destroy(onGuiThread: bool, key: Key)
      modifies this
      ensures Snapshot() == Destroyed(old(Snapshot()), key)
      ensures old(Consistent(Snapshot())) ==> Consistent(Snapshot())
      ensures running == old(running)
      ensures lockDepth == old(lockDepth)
      ensures lockLog == old(lockLog) + Bracket(onGuiThread)
    {
      var needlock := !onGuiThread;
      if needlock { ThreadsEnter(); }
      if key in jobs {
        assert MayUpdate(onGuiThread);
        var j := jobs[key];
        jobs := jobs - {key};
        if j.attached {
          rows := RemoveFirst(rows, key);
        }
        if |rows| == 0 {
          shown := false;
        }
      }
      if needlock { ThreadsLeave(); }
    }

    /** `_lib_backgroundjobs_set_cancellable`: returns before touching the
        lock once the application has stopped running; otherwise packs one
        more cancel control, bound to `job`, into the row of a live key. */
    method SetCancellable(onGuiThread: bool, key: Key, job: JobRef)
      modifies this
      ensures Snapshot() == CancellableSet(old(Snapshot()), running, key, job)
      ensures old(Consistent(Snapshot())) ==> Consistent(Snapshot())
      ensures running == old(running)
      ensures lockDepth == old(lockDepth)
      ensures lockLog == old(lockLog) + (if running then Bracket(onGuiThread) else [])
    {
      if !running {
        return;
      }
      var needlock := !onGuiThread;
      if needlock { ThreadsEnter(); }
      if key in jobs {
        assert MayUpdate(onGuiThread);
        var j := jobs[key];
        jobs := jobs[key := j.(cancels := j.cancels + [job])];
      }
      if needlock { ThreadsLeave(); }
    }

    /** `_lib_backgroundjobs_progress`: returns before touching the lock once
        the application has stopped running. For a live key, a fraction of
        1.0 or more unpacks the row and hides an empty box but keeps the
        record; a smaller fraction is set on the progress bar of a type-0
        job. */
    method Progress(onGuiThread: bool, key: Key, fraction: real)
      modifies this
      ensures Snapshot() == Progressed(old(Snapshot()), running, key, fraction)
      ensures old(Consistent(Snapshot())) ==> Consistent(Snapshot())
      ensures running == old(running)
      ensures lockDepth == old(lockDepth)
      ensures lockLog == old(lockLog) + (if running then Bracket(onGuiThread) else [])
    {
      if !running {
        return;
      }
      var needlock := !onGuiThread;
      if needlock { ThreadsEnter(); }
      if key in jobs {
        assert MayUpdate(onGuiThread);
        var j := jobs[key];
        if fraction >= 1.0 {
          if j.attached {
            rows := RemoveFirst(rows, key);
          }
          jobs := jobs[key := j.(attached := false)];
          if |rows| == 0 {
            shown := false;
          }
        } else if j.kind == 0 {
          jobs := jobs[key := j.(bar := Some(fraction))];
        }
      }
      if needlock { ThreadsLeave(); }
    }
  }

  /** A worker thread's view of one job's life: the key it gets back is live
      with a progress bar, progress is shown, completion takes the row off
      the panel, and after destroy nothing of the job is left. */
  method JobLifecycle()
  {
    var panel := new JobsPanel(true);
    var k := panel.Create(false, 0, "exporting");
    assert panel.jobs[k].bar == Some(0.0) && panel.rows == [k] && panel.shown;
    panel.SetCancellable(false, k, 7);
    panel.Progress(false, k, 0.5);
    assert panel.jobs[k].bar == Some(0.5) && panel.jobs[k].cancels == [7];
    panel.Progress(false, k, 1.0);
    assert k in panel.jobs && panel.rows == [] && !panel.shown;
    panel.Destroy(false, k);
    assert panel.jobs == map[] && panel.lockDepth == 0;
  }
}
