/**
 Undo and redo of file edits: two fixed stacks of earlier contents. File contents are strings; file
 input and output may fail where the arguments say so.
 */
module ChangeTracker {
  import opened Wrappers

  const CT_MAX_STACK := 64

  type Path = string
  type Files = map<Path, string>

  /** A path and the contents to put back; content_len is the length of the contents. */
  datatype Entry = Entry(path: Path, content: string)

  /** How writing a file back goes: it does not open, it stops with something else in the file, or it works. */
  datatype Write = NoOpen | Partial(left: string) | Works

  /** The stacks, oldest entry first, and the files. */
  datatype State = State(undo: seq<Entry>, redo: seq<Entry>, files: Files)

  /** What strlen sees. */
  function UpToNul(s: string): string {
    if s == "" || s[0] == '\0' then "" else [s[0]] + UpToNul(s[1..])
  }

  /** The contents an undo keeps for the redo; a file that is missing counts as empty. */
  function Current(files: Files, path: Path): string {
    if path in files then UpToNul(files[path]) else ""
  }

  /** The newest 64 entries after a push. */
  function Push(stack: seq<Entry>, e: Entry): seq<Entry> {
    (if |stack| >= CT_MAX_STACK then stack[1..] else stack) + [e]
  }

  function Snapshot(s: State, path: Path): State {
    if path !in s.files then s else State(Push(s.undo, Entry(path, s.files[path])), [], s.files)
  }

  function Undo(s: State, write: Write): State {
    if s.undo == [] || write.NoOpen? then s
    else
      var e := s.undo[|s.undo| - 1];
      if write.Partial? then s.(files := s.files[e.path := write.left])
      else State(s.undo[..|s.undo| - 1], Push(s.redo, Entry(e.path, Current(s.files, e.path))),
                 s.files[e.path := e.content])
  }

  function Redo(s: State, write: Write): State {
    if s.redo == [] || write.NoOpen? then s
    else
      var e := s.redo[|s.redo| - 1];
      if write.Partial? then s.(files := s.files[e.path := write.left])
      else State(Push(s.undo, e), s.redo[..|s.redo| - 1], s.files[e.path := e.content])
  }

  /** Together the stacks never hold more than one of them may. */
  predicate Balanced(s: State) {
    |s.undo| + |s.redo| <= CT_MAX_STACK
  }

  // ----- the tracker -----

  class Tracker {
    const undoStack: array<Entry>
    const redoStack: array<Entry>
    var undoCount: nat
    var redoCount: nat
    var files: Files           // the file system around the tracker

    ghost predicate Valid()
      reads this, undoStack, redoStack
    {
      && undoStack.Length == CT_MAX_STACK == redoStack.Length && undoStack != redoStack
      && undoCount <= CT_MAX_STACK && redoCount <= CT_MAX_STACK && Balanced(Contents())
    }

    ghost function Contents(): State
      requires undoCount <= undoStack.Length && redoCount <= redoStack.Length
      reads this, undoStack, redoStack
    {
      State(undoStack[..undoCount], redoStack[..redoCount], files)
    }

    /** ct_create */
    constructor (files: Files)
      ensures Valid() && fresh(undoStack) && fresh(redoStack) && Contents() == State([], [], files)
    {
      undoStack := new Entry[CT_MAX_STACK](_ => Entry("", ""));
      redoStack := new Entry[CT_MAX_STACK](_ => Entry("", ""));
      undoCount, redoCount, this.files := 0, 0, files;
    }

    /** memmove: the oldest entry goes. */
    method DropOldest()
      requires undoStack.Length == CT_MAX_STACK == undoCount && undoStack != redoStack
      modifies this`undoCount, undoStack
      ensures undoCount == CT_MAX_STACK - 1 && undoStack[..undoCount] == old(undoStack[1..])
    {
      forall i | 0 <= i < CT_MAX_STACK - 1 { undoStack[i] := undoStack[i + 1]; }
      undoCount := undoCount - 1;
    }

    /** ct_snapshot */
    method TakeSnapshot(path: Path) returns (ok: bool)
      requires Valid()
      modifies this`undoCount, this`redoCount, undoStack
      ensures Valid() && Contents() == Snapshot(old(Contents()), path) && (ok <==> path in files)
    {
      if path !in files { return false; }
      var content := files[path];
      if undoCount >= CT_MAX_STACK { DropOldest(); }
      undoStack[undoCount] := Entry(path, content);
      undoCount := undoCount + 1;
      redoCount := 0;
      return true;
    }

    /** ct_undo. The redo stack is never full here: the branch that would drop its oldest entry is dead. */
    method UndoOne(write: Write) returns (ok: bool)
      requires Valid()
      modifies this`undoCount, this`redoCount, this`files, redoStack
      ensures Valid() && Contents() == Undo(old(Contents()), write) && (ok <==> old(undoCount) > 0 && write.Works?)
    {
      if undoCount == 0 { return false; }
      var entry := undoStack[undoCount - 1];
      var saved := "";
      if entry.path in files { saved := UpToNul(files[entry.path]); }
      if write.NoOpen? { return false; }
      if write.Partial? {
        files := files[entry.path := write.left];
        return false;
      }
      files := files[entry.path := entry.content];
      if redoCount >= CT_MAX_STACK { assert false; }
      redoStack[redoCount] := Entry(entry.path, saved);
      redoCount := redoCount + 1;
      undoCount := undoCount - 1;
      return true;
    }

    /** ct_redo. The undo stack is never full here either. */
    method RedoOne(write: Write) returns (ok: bool)
      requires Valid()
      modifies this`undoCount, this`redoCount, this`files, undoStack
      ensures Valid() && Contents() == Redo(old(Contents()), write) && (ok <==> old(redoCount) > 0 && write.Works?)
    {
      if redoCount == 0 { return false; }
      var entry := redoStack[redoCount - 1];
      if write.NoOpen? { return false; }
      if write.Partial? {
        files := files[entry.path := write.left];
        return false;
      }
      files := files[entry.path := entry.content];
      if undoCount >= CT_MAX_STACK { assert false; }
      undoStack[undoCount] := entry;
      undoCount := undoCount + 1;
      redoCount := redoCount - 1;
      return true;
    }
  }

  // ----- every run -----

  /** What can happen: the three calls, and edits of files by anybody. */
  datatype Step = Snap(path: Path) | Back(write: Write) | Forth(write: Write) | Edit(files: Files)

  function Take(s: State, step: Step): State {
    match step
    case Snap(path) => Snapshot(s, path)
    case Back(write) => Undo(s, write)
    case Forth(write) => Redo(s, write)
    case Edit(files) => s.(files := files)
  }

  function TakeAll(s: State, steps: seq<Step>): State {
    if steps == [] then s else Take(TakeAll(s, steps[..|steps| - 1]), steps[|steps| - 1])
  }

  /** In every run, with every failure, the stacks together hold at most 64 entries. */
  lemma {:induction false} AlwaysBalanced(files: Files, steps: seq<Step>)
    ensures Balanced(TakeAll(State([], [], files), steps))
  {
    if steps != [] { AlwaysBalanced(files, steps[..|steps| - 1]); }
  }

  // ----- undo and redo -----

  function Undos(s: State, k: nat): State
    decreases k
  {
    if k == 0 then s else Undos(Undo(s, Works), k - 1)
  }

  function Redos(s: State, k: nat): State {
    if k == 0 then s else Redo(Redos(s, k - 1), Works)
  }

  /** The paths of the newest k entries. */
  function Touched(undo: seq<Entry>, k: nat): set<Path>
    requires k <= |undo|
  {
    if k == 0 then {} else {undo[|undo| - 1].path} + Touched(undo[..|undo| - 1], k - 1)
  }

  /** The files with the touched ones cut at their first NUL, and made if they were missing. */
  function Cut(files: Files, touched: set<Path>): Files {
    map p | p in files.Keys + touched :: if p in touched then Current(files, p) else files[p]
  }

  lemma UndoWorks(s: State)
    requires s.undo != [] && Balanced(s)
    ensures var e := s.undo[|s.undo| - 1];
            Undo(s, Works) ==
              State(s.undo[..|s.undo| - 1], s.redo + [Entry(e.path, Current(s.files, e.path))],
                    s.files[e.path := e.content])
    ensures Balanced(Undo(s, Works)) && |Undo(s, Works).undo| == |s.undo| - 1 < CT_MAX_STACK
  {
  }

  lemma RedoWorks(s: State, front: seq<Entry>, e: Entry)
    requires s.redo == front + [e] && |s.undo| < CT_MAX_STACK
    ensures Redo(s, Works) == State(s.undo + [e], front, s.files[e.path := e.content])
  {
  }

  lemma CutStep(files: Files, p: Path, content: string, touched: set<Path>)
    ensures Cut(files[p := content], touched)[p := Current(files, p)] == Cut(files, {p} + touched)
  {
  }

  lemma Unfold(s: State, k: nat)
    requires 0 < k <= |s.undo|
    ensures Undos(s, k) == Undos(Undo(s, Works), k - 1)
    ensures Redos(Undos(s, k), k) == Redo(Redos(Undos(s, k), k - 1), Works)
    ensures Touched(s.undo, k) == {s.undo[|s.undo| - 1].path} + Touched(s.undo[..|s.undo| - 1], k - 1)
  {
    hide Undo, Redo;
  }

  /** The last redo, once the k - 1 before it have done their part. */
  lemma LastRedo(s: State, k: nat, s2: State)
    requires 0 < k <= |s.undo| && Balanced(s) && s2 == Redos(Undos(s, k), k - 1)
    requires var s1 := Undo(s, Works);
             && |s1.undo| == |s.undo| - 1 == |s2.undo| && s2.redo == s1.redo
             && s2.files == Cut(s1.files, Touched(s1.undo, k - 1))
    ensures var s' := Redos(Undos(s, k), k);
            s'.files == Cut(s.files, Touched(s.undo, k)) && s'.redo == s.redo && |s'.undo| == |s.undo|
  {
    hide *;
    Unfold(s, k);
    UndoWorks(s);
    var e := s.undo[|s.undo| - 1];
    RedoWorks(s2, s.redo, Entry(e.path, Current(s.files, e.path)));
    CutStep(s.files, e.path, e.content, Touched(s.undo[..|s.undo| - 1], k - 1));
  }

  lemma CutNothing(files: Files)
    ensures Cut(files, {}) == files
  {
  }

  /** k undos followed by k redos: what the stacks and the files are then. */
  lemma {:induction false} UndosRedos(s: State, k: nat)
    requires k <= |s.undo| && Balanced(s)
    ensures var s' := Redos(Undos(s, k), k);
            s'.files == Cut(s.files, Touched(s.undo, k)) && s'.redo == s.redo && |s'.undo| == |s.undo|
    decreases k
  {
    hide Undo, Redo, Cut, Balanced;
    if k == 0 {
      CutNothing(s.files);
    } else {
      hide *;
      Unfold(s, k);
      UndoWorks(s);
      UndosRedos(Undo(s, Works), k - 1);
      LastRedo(s, k, Redos(Undos(s, k), k - 1));
    }
  }

  lemma {:induction false} UpToNulIs(s: string)
    ensures UpToNul(s) == s <==> '\0' !in s
  {
    if s != "" {
      UpToNulIs(s[1..]);
      if s[0] != '\0' {
        assert UpToNul(s)[1..] == UpToNul(s[1..]);
        assert s == [s[0]] + s[1..];
      }
    }
  }

  /** k undos followed by k redos give every file back exactly when each of the files touched existed and held
      no NUL. */
  lemma UndosRedosExact(s: State, k: nat)
    requires k <= |s.undo| && Balanced(s)
    ensures Redos(Undos(s, k), k).files == s.files <==>
            forall p | p in Touched(s.undo, k) :: p in s.files && '\0' !in s.files[p]
  {
    UndosRedos(s, k);
    var touched := Touched(s.undo, k);
    var cut := Cut(s.files, touched);
    forall p | p in touched ensures p in s.files && '\0' !in s.files[p] <==> p in s.files && cut[p] == s.files[p] {
      if p in s.files { UpToNulIs(s.files[p]); }
    }
    if forall p | p in touched :: p in s.files && '\0' !in s.files[p] {
      assert cut.Keys == s.files.Keys;
    } else {
      var p :| p in touched && !(p in s.files && '\0' !in s.files[p]);
      assert p in cut;
    }
  }

  /** Whatever an edit did to a file, undoing right after brings back what the snapshot saw, NULs and all. */
  lemma SnapshotUndo(s: State, path: Path, edited: Files)
    requires Balanced(s) && path in s.files
    ensures var s' := Undo(Snapshot(s, path).(files := edited), Works);
            path in s'.files && s'.files == edited[path := s.files[path]]
  {
  }

  // ----- which entries stay -----

  /** The newest n, in their order. */
  function Newest(entries: seq<Entry>, n: nat): seq<Entry> {
    if |entries| <= n then entries else entries[|entries| - n..]
  }

  /** The snapshots that a run of snapshots and edits takes: of files that exist, as they are at the time. */
  function Taken(files: Files, steps: seq<Step>): seq<Entry>
    decreases |steps|
  {
    if steps == [] then []
    else
      match steps[0]
      case Snap(path) => (if path in files then [Entry(path, files[path])] else []) + Taken(files, steps[1..])
      case Edit(edited) => Taken(edited, steps[1..])
      case _ => Taken(files, steps[1..])
  }

  /** The files at the end of such a run. */
  function FilesAfter(files: Files, steps: seq<Step>): Files {
    if steps == [] then files
    else if steps[|steps| - 1].Edit? then steps[|steps| - 1].files
    else FilesAfter(files, steps[..|steps| - 1])
  }

  predicate OnlySnapsAndEdits(steps: seq<Step>) {
    forall step | step in steps :: step.Snap? || step.Edit?
  }

  lemma {:induction false} TakenMore(files: Files, front: seq<Step>, step: Step)
    requires OnlySnapsAndEdits(front)
    ensures Taken(files, front + [step]) ==
            Taken(files, front) + if step.Snap? && step.path in FilesAfter(files, front)
                                  then [Entry(step.path, FilesAfter(files, front)[step.path])] else []
    decreases |front|
  {
    hide Taken, FilesAfter;
    var all := front + [step];
    TakenFirst(files, all);
    if front == [] {
      assert all[1..] == [];
      TakenNone(files);
      TakenNone(FilesOn(files, step));
      var own := if step.Snap? && step.path in files then [Entry(step.path, files[step.path])] else [];
      assert own + [] == own && [] + own == own;
    } else {
      assert all[1..] == front[1..] + [step];
      assert front[0] in front && forall x | x in front[1..] :: x in front;
      TakenFirst(files, front);
      TakenMore(FilesOn(files, front[0]), front[1..], step);
      FilesFrom(files, front);
    }
  }

  function FilesOn(files: Files, step: Step): Files {
    if step.Edit? then step.files else files
  }

  lemma TakenNone(files: Files)
    ensures Taken(files, []) == [] && FilesAfter(files, []) == files
  {
  }

  lemma TakenFirst(files: Files, steps: seq<Step>)
    requires steps != []
    ensures Taken(files, steps) ==
            (if steps[0].Snap? && steps[0].path in files then [Entry(steps[0].path, files[steps[0].path])] else [])
            + Taken(FilesOn(files, steps[0]), steps[1..])
  {
  }

  lemma {:induction false} FilesFrom(files: Files, steps: seq<Step>)
    requires steps != []
    ensures FilesAfter(files, steps) == FilesAfter(FilesOn(files, steps[0]), steps[1..])
  {
    if |steps| > 1 && !steps[|steps| - 1].Edit? {
      FilesFrom(files, steps[..|steps| - 1]);
      assert steps[1..][..|steps[1..]| - 1] == steps[..|steps| - 1][1..];
    }
  }

  /** The stack takes a snapshot and forgets the oldest one when there are 64 already; nothing can be redone then. A
      file that does not exist changes nothing. */
  lemma SnapshotKeepsNewest(s: State, path: Path)
    requires Balanced(s)
    ensures Snapshot(s, path) ==
            if path in s.files then State(Newest(s.undo + [Entry(path, s.files[path])], 64), [], s.files) else s
  {
    assert |s.undo| == 64 ==> (s.undo + [Entry(path, "")])[1..] == s.undo[1..] + [Entry(path, "")];
    if path in s.files {
      var e := Entry(path, s.files[path]);
      assert |s.undo| == 64 ==> (s.undo + [e])[1..] == s.undo[1..] + [e];
    }
  }

  /** Over every run of snapshots and edits the undo stack is the newest 64 of the snapshots taken, in order. */
  lemma {:induction false} StackIsNewest(files: Files, steps: seq<Step>)
    requires OnlySnapsAndEdits(steps)
    ensures TakeAll(State([], [], files), steps) ==
            State(Newest(Taken(files, steps), 64), [], FilesAfter(files, steps))
  {
    if steps != [] {
      hide Snapshot, Taken, FilesAfter;
      var front, step := steps[..|steps| - 1], steps[|steps| - 1];
      assert steps == front + [step] && step in steps && forall x | x in front :: x in steps;
      StackIsNewest(files, front);
      AlwaysBalanced(files, front);
      TakenMore(files, front, step);
      LastFiles(files, front, step);
      var s := TakeAll(State([], [], files), front);
      if step.Snap? {
        SnapshotKeepsNewest(s, step.path);
        if step.path in s.files { NewestOfNewest(Taken(files, front), Entry(step.path, s.files[step.path])); }
      }
      assert Taken(files, front) + [] == Taken(files, front);
    }
  }

  lemma LastFiles(files: Files, front: seq<Step>, step: Step)
    ensures FilesAfter(files, front + [step]) == if step.Edit? then step.files else FilesAfter(files, front)
  {
    assert (front + [step])[..|front|] == front;
  }

  lemma NewestOfNewest(entries: seq<Entry>, e: Entry)
    ensures Newest(Newest(entries, 64) + [e], 64) == Newest(entries + [e], 64)
  {
    if |entries| >= 64 {
      var kept := Newest(entries, 64);
      assert (kept + [e])[1..] == kept[1..] + [e];
      assert (entries + [e])[|entries| - 63..] == entries[|entries| - 63..] + [e];
    }
  }

  // ----- what undoing puts into the files -----

  /** What the oldest of the entries says about the path. */
  function Oldest(entries: seq<Entry>, path: Path): Option<string> {
    if entries == [] then None
    else if entries[0].path == path then Some(entries[0].content)
    else Oldest(entries[1..], path)
  }

  lemma {:induction false} OldestMore(entries: seq<Entry>, e: Entry, path: Path)
    ensures Oldest(entries + [e], path) ==
            if Oldest(entries, path).Some? then Oldest(entries, path)
            else if e.path == path then Some(e.content) else None
  {
    if entries == [] {
      assert [e][1..] == [];
    } else {
      assert (entries + [e])[1..] == entries[1..] + [e];
      OldestMore(entries[1..], e, path);
    }
  }

  /** k undos: every path that the newest k entries name has the contents of the oldest of these; other files are left
      alone. */
  lemma {:induction false} UndosRestore(s: State, k: nat, path: Path)
    requires k <= |s.undo| && Balanced(s)
    ensures var s', undone := Undos(s, k), Oldest(s.undo[|s.undo| - k..], path);
            && s'.undo == s.undo[..|s.undo| - k]
            && (path in s'.files <==> path in s.files || undone.Some?)
            && (path in s'.files ==> s'.files[path] == if undone.Some? then undone.value else s.files[path])
    decreases k
  {
    hide Undo, Undos, Oldest, Balanced;
    if k == 0 {
      NoUndos(s, path);
    } else {
      UndoWorks(s);
      UndosFirst(s, k);
      UndosRestore(Undo(s, Works), k - 1, path);
      NewestParts(s.undo, k);
      var n := |s.undo|;
      OldestMore(s.undo[n - k..n - 1], s.undo[n - 1], path);
    }
  }

  lemma NoUndos(s: State, path: Path)
    ensures Undos(s, 0) == s && s.undo[..|s.undo|] == s.undo && Oldest(s.undo[|s.undo|..], path).None?
  {
  }

  lemma UndosFirst(s: State, k: nat)
    requires k > 0
    ensures Undos(s, k) == Undos(Undo(s, Works), k - 1)
  {
  }

  lemma NewestParts(undo: seq<Entry>, k: nat)
    requires 0 < k <= |undo|
    ensures var n := |undo|;
            && undo[..n - 1][n - 1 - (k - 1)..] == undo[n - k..n - 1] && undo[..n - 1][..n - k] == undo[..n - k]
            && undo[n - k..] == undo[n - k..n - 1] + [undo[n - 1]]
  {
  }

  /** For the redo an undo keeps what a C string holds of the file: all up to its first NUL; a missing file is empty. */
  lemma {:induction false} KeptForRedo(files: Files, path: Path)
    ensures path !in files ==> Current(files, path) == ""
    ensures path in files ==>
              var kept, all := Current(files, path), files[path];
              kept <= all && '\0' !in kept && (kept == all || all[|kept|] == '\0')
  {
    if path in files { UpToNulPrefix(files[path]); }
  }

  lemma {:induction false} UpToNulPrefix(s: string)
    ensures var kept := UpToNul(s);
            kept <= s && '\0' !in kept && (kept == s || s[|kept|] == '\0')
  {
    if s != "" && s[0] != '\0' { UpToNulPrefix(s[1..]); }
  }

  /** An undo or redo that cannot write puts nothing on the other stack and takes nothing from its own. */
  lemma FailuresKeepStacks(s: State, write: Write)
    requires !write.Works?
    ensures Undo(s, write).undo == s.undo && Undo(s, write).redo == s.redo
    ensures Redo(s, write).undo == s.undo && Redo(s, write).redo == s.redo
    ensures Undo(s, write).files == match write
                                    case Partial(left) =>
                                      if s.undo == [] then s.files else s.files[s.undo[|s.undo| - 1].path := left]
                                    case _ => s.files
    ensures Redo(s, write).files == match write
                                    case Partial(left) =>
                                      if s.redo == [] then s.files else s.files[s.redo[|s.redo| - 1].path := left]
                                    case _ => s.files
  {
  }
}
