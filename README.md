# Background-jobs panel of darktable, modelled in Dafny

darktable's background-jobs panel (`src/libs/backgroundjobs.c`) shows one row
for each running asynchronous job, such as an export. Other subsystems drive it
from any thread through four proxy functions:

- `create` registers a job and packs its row;
- `set_cancellable` adds a cancel button to a row;
- `progress` updates a row's progress bar, or takes the row off when the job completes;
- `destroy` frees the job's record and removes its row.

Under the GTK plumbing this is a small sequential state machine. This project
models that machine and proves how each operation changes it.

- `jobbox.dfy` (module `JobBox`): the children of `d->jobbox`, kept as an
  ordered list of job keys. It models packing a row at index 1 and removing a
  row, and proves that removing a row keeps every other row in its order.
- `registry.dfy` (module `Registry`): the whole state as a value. It holds the
  job table `d->jobs`, the box's children and whether the box is shown. It
  defines an invariant `Consistent` and one transition function per proxy
  operation, and proves lemmas that relate several calls.
- `backgroundjobs.dfy` (module `BackgroundJobs`): class `JobsPanel`. Its
  fields are the table, the children, the visibility, the host's `running`
  flag, and a ghost GDK lock (a depth counter plus a log of enters and leaves).
  Each proxy function is a method with `modifies this` that updates these
  fields in place. Each method is proved equal to its function in `Registry`,
  to preserve `Consistent`, and to leave the lock exactly as it found it.

The caller's thread is the parameter `onGuiThread`. It is the negation of the
source's `needlock`, which compares `pthread_self()` with the GUI thread. The
lock is entered exactly when `onGuiThread` is false, and is always released
before the operation returns. `set_cancellable` and `progress` return early,
without touching the lock, when `running` is false. `create` and `destroy` do
not read `running`.

A row is the key of its job, and a job record says whether its row is still
packed (`attached`). The source tests this with `GTK_IS_WIDGET(j->widget)`.
Once the box has removed the row, the box held the widget's only reference, so
the widget is freed and that test reads a freed pointer, which the model
assumes reads false.

`BackgroundJobs.JobLifecycle` is a usage scenario, not a model of any source
function: it drives one job through create, set_cancellable, progress below
and at 1.0, and destroy, and asserts what the method contracts give at each
step.

Three behaviours of the code worth noting:

- `progress` with a fraction of 1.0 or more removes the row but keeps the
  record in the table. A later `destroy` frees the record
  (`Registry.CompletionThenDestroy`).
- Calling `set_cancellable` twice packs two cancel buttons
  (`Registry.CancelControlsAccumulate`).
- The box is shown exactly when it has rows, not when the table is non-empty.
  A completed job that has not yet been destroyed is in the table but has no
  row.

## Model

| member | source | states |
|---|---|---|
| JobBox.InsertRow | src/libs/backgroundjobs.c:147-148 | the new row ends up at index 1, or at index 0 in an empty box; the first row stays first and the rest move down one place; removing the new row gives back the old list; packing a key that has no row yet keeps the rows distinct |
| JobBox.RemoveFirst | src/libs/backgroundjobs.c:168 | removing a widget that is not a child changes nothing; otherwise exactly one row goes and every remaining row was there before |
| JobBox.RemoveFirstAt | src/libs/backgroundjobs.c:168 | among distinct rows, removing the row at index i cuts out exactly that position, so every other row keeps its relative order |
| JobBox.RemoveFirstCount | src/libs/backgroundjobs.c:222 | removing a row takes exactly one copy of its key out of the children, counted as a multiset |
| JobBox.RemoveFirstDistinct | src/libs/backgroundjobs.c:164-168 | among distinct rows, the result stays distinct and contains exactly the old rows other than the removed key |
| Registry.Initial | src/libs/backgroundjobs.c:86-90 | after gui_init the table and the box are empty, the box is hidden, and the state is consistent |
| Registry.Created | src/libs/backgroundjobs.c:118-150 | the table holds exactly the old entries plus the new key, with the given type and message, attached and with no cancel control; the job has a progress bar iff its type is 0; the new row is at index 1 (index 0 in an empty box) and the other rows keep their order; the box is shown; consistency is preserved |
| Registry.Unpack | src/libs/backgroundjobs.c:221-226 | the table is untouched; a detached row leaves the rows as they are, an attached one takes exactly one row away and adds none; an empty box is hidden and a non-empty one keeps its visibility; in a consistent state exactly the job's row goes, the rows stay distinct, and the box is shown iff rows remain |
| Registry.Destroyed | src/libs/backgroundjobs.c:161-176 | an unknown key changes nothing; a live key leaves the table and its row leaves the box; the box is hidden iff no row is left, and otherwise its visibility is unchanged; consistency is preserved |
| Registry.CancellableSet | src/libs/backgroundjobs.c:188-203 | no change when not running or when the key is unknown; otherwise exactly one cancel control bound to the given job is appended to that job's row, and nothing else changes |
| Registry.Progressed | src/libs/backgroundjobs.c:211-232 | no change when not running or when the key is unknown; a fraction of at least 1.0 detaches the row and hides the box iff no row is left, but keeps the record; a smaller fraction is stored for a type-0 job and changes nothing for any other type; consistency is preserved |
| Registry.DestroyedKeyIsInert | src/libs/backgroundjobs.c:161-162 | after destroy, any sequence of destroy, set_cancellable and progress calls on the same key leaves the state exactly as destroy left it |
| Registry.CancelControlsAccumulate | src/libs/backgroundjobs.c:193-202 | two set_cancellable calls on a live key leave two more controls, in call order |
| Registry.CompletionThenDestroy | src/libs/backgroundjobs.c:219-227 | a completed job is still in the table but off the box; destroying it afterwards gives the same state as destroying it directly |
| Registry.ShownWhileRowsRemain | src/libs/backgroundjobs.c:147-172 | starting from gui_init, two created jobs show the box, destroying both empties the table and hides the box, and creating a third shows it again |
| BackgroundJobs.Bracket | src/libs/backgroundjobs.c:115-116 | the lock is entered and then left on a non-GUI thread, and not touched at all on the GUI thread |
| BackgroundJobs.FreshKeyExists | src/libs/backgroundjobs.c:119-124 | some key is above every live key, so a new record always finds a key that is not in the table |
| BackgroundJobs.JobsPanel.constructor | src/libs/backgroundjobs.c:79-90 | the object starts in the initial state of gui_init, with the lock untouched |
| BackgroundJobs.JobsPanel.Create | src/libs/backgroundjobs.c:110-154 | returns a key that was not live before; the fields move as Created says; running is unchanged; the lock depth is the same on exit and the log gains one enter and leave iff the caller is not the GUI thread |
| BackgroundJobs.JobsPanel.Destroy | src/libs/backgroundjobs.c:156-178 | the fields move as Destroyed says; consistency is preserved; the lock is balanced, and entered iff the caller is not the GUI thread |
| BackgroundJobs.JobsPanel.SetCancellable | src/libs/backgroundjobs.c:186-206 | the fields move as CancellableSet says; when not running the lock log is unchanged, and otherwise it gains a balanced enter and leave iff the caller is not the GUI thread |
| BackgroundJobs.JobsPanel.Progress | src/libs/backgroundjobs.c:209-236 | the fields move as Progressed says; when not running the lock log is unchanged, and otherwise it gains a balanced enter and leave iff the caller is not the GUI thread |
| BackgroundJobs.JobsPanel.ThreadsEnter | src/libs/backgroundjobs.c:116 | gdk_threads_enter raises the lock depth by one and logs an enter |
| BackgroundJobs.JobsPanel.ThreadsLeave | src/libs/backgroundjobs.c:152 | gdk_threads_leave may only release a lock that was entered; it lowers the depth by one and logs a leave |

## Left out

- Widget construction and styling are not modelled: event boxes, the vbox and
  hbox nesting, border widths, widget names, alignment and the 17x17 size
  request of the cancel button. A row is its job's key, a flag saying whether
  it is still packed, and the list of jobs its cancel buttons are bound to.
- Threads are not modelled. `gdk_threads_enter`/`gdk_threads_leave` are a
  ghost depth counter and log, and `pthread_equal` is the boolean parameter
  `onGuiThread`. Mutual exclusion, blocking, and the deadlock a worker
  thread would hit by calling in while holding the GDK lock are outside the
  model.
- Key derivation is not modelled. The source hashes the record's address
  with `g_direct_hash`; the model picks any key that is not in the table. A
  pointer-truncation collision between live records is therefore not
  represented.
- `g_malloc`/`g_free` and allocation failure are not modelled.
- `_lib_backgroundjobs_cancel_callback` and `dt_control_job_cancel` are calls
  into the job scheduler. The model records only which job each cancel
  control is bound to.
- Module metadata is not modelled: `name`, `views`, `position`,
  `expandable`, the proxy pointer assignments in `gui_init`, and
  `gui_cleanup`.
- The `running` flag belongs to the host's control structure. It is a public
  field that the host may clear; no operation here writes it.
- `progress` is a Dafny `real`, not a C `double`. The source only compares it
  with 1.0 and passes it to the progress bar. GTK's clamping of the displayed
  fraction to [0, 1] is not modelled.
- The job type is an unbounded `int`. The source stores it in a `uint32_t`,
  but the conversion cannot change whether the type is 0, and that is the
  only test the source makes.
- Registry.CancellableSet and Registry.Progressed (below 1.0) do not model
  what the source does on a row whose widget was already freed by an earlier
  completion. In that case the source still dereferences `j->widget` or
  `j->progressbar`. The model instead updates the record: it appends the
  control or stores the fraction, and nothing is shown.
- Registry.Destroyed and Registry.Progressed (at 1.0 or more) on a job that has
  already completed rely on `GTK_IS_WIDGET` of the freed row widget reading
  false, so that the row is not removed a second time. The source reads freed
  memory there, and a later row widget may even occupy the same memory; the
  model assumes the test is false and leaves the rows as they are.
- `MayUpdate` (caller is the GUI thread or holds the lock) is only checked by
  assertions inside the methods. It does not appear in their postconditions.
