/**
 * The Kotlin plugin's library modification tracker: a counter that file-system events
 * touching library classes, dumb-mode changes and file-type changes bump. The project's
 * file index and the archive lookups are the IDE's, passed in as a `FileIndex` on each
 * call that consults them, since the index answers differently before and after a
 * change; the message bus and `invokeLater` are replaced by direct calls and a queue.
 */
module LibraryTracker {
  import opened Wrappers

  /** A file of the virtual file system. */
  datatype VirtualFile = VirtualFile(path: string)

  /** The kind of a file-system event. */
  datatype EventKind = Create | Move | Copy | Delete | ContentChange | PropertyChange

  /** A file-system event: its kind, whether it is still valid, and its file when it has one. */
  datatype VFileEvent = VFileEvent(kind: EventKind, isValid: bool, file: Option<VirtualFile>)

  /**
   * The IDE services the tracker asks: whether a file is in the classes of a library,
   * whether it is an archive, and the archive's root when the jar file system has one.
   */
  datatype FileIndex = FileIndex(
    isInLibraryClasses: VirtualFile -> bool,
    isArchive: VirtualFile -> bool,
    archiveRoot: VirtualFile -> Option<VirtualFile>)

  /** `isRelevantEvent`: a create, move or copy event; deletions and content or property changes are not. */
  predicate IsRelevantEvent(e: VFileEvent)
    ensures IsRelevantEvent(e) <==> e.kind !in {Delete, ContentChange, PropertyChange}
  {
    e.kind == Create || e.kind == Move || e.kind == Copy
  }

  /** `events.filter(::isRelevantEvent)`: the relevant events in order. */
  function RelevantEvents(events: seq<VFileEvent>): (r: seq<VFileEvent>)
    ensures |r| <= |events|
    ensures forall e :: e in r <==> e in events && e.kind in {Create, Move, Copy}
    decreases |events|
  {
    if events == [] then []
    else
      var init := RelevantEvents(events[..|events| - 1]);
      var last := events[|events| - 1];
      assert events == events[..|events| - 1] + [last];
      if IsRelevantEvent(last) then init + [last] else init
  }

  /**
   * `isLibraryArchiveRoot`: the file is an archive whose jar root is in library classes.
   * Whatever the index says of the root, a file that is not an archive, or has no root,
   * is not one.
   */
  function IsLibraryArchiveRoot(index: FileIndex, f: VirtualFile): (b: bool)
    ensures b <==> index.isArchive(f) && index.archiveRoot(f).Some? && index.isInLibraryClasses(index.archiveRoot(f).value)
  {
    if !index.isArchive(f) then false
    else match index.archiveRoot(f)
      case None => false
      case Some(root) => index.isInLibraryClasses(root)
  }

  /** The check `before` applies: the file is in library classes. */
  function BeforeCheck(index: FileIndex): VirtualFile -> bool
  {
    f => index.isInLibraryClasses(f)
  }

  /** The check the scheduled part of `after` applies: library classes, or a library archive root. */
  function AfterCheck(index: FileIndex): VirtualFile -> bool
  {
    f => index.isInLibraryClasses(f) || IsLibraryArchiveRoot(index, f)
  }

  /** An event the check accepts: valid, with a file, and the file passes. */
  predicate Hit(e: VFileEvent, check: VirtualFile -> bool)
  {
    e.isValid && e.file.Some? && check(e.file.value)
  }

  /** Some event of the batch is a hit. */
  predicate Hits(events: seq<VFileEvent>, check: VirtualFile -> bool)
  {
    exists i :: 0 <= i < |events| && Hit(events[i], check)
  }

  /** Whatever `before` counts, the `after` check would count too: it accepts every file `before` does. */
  lemma AfterAcceptsMore(index: FileIndex, events: seq<VFileEvent>)
    ensures Hits(events, BeforeCheck(index)) ==> Hits(events, AfterCheck(index))
  {
    if Hits(events, BeforeCheck(index)) {
      var i :| 0 <= i < |events| && Hit(events[i], BeforeCheck(index));
      assert Hit(events[i], AfterCheck(index));
    }
  }

  /**
   * `after` looks only at the relevant events: its batch hits exactly when some create,
   * move or copy event of the original batch does.
   */
  lemma RelevantHits(events: seq<VFileEvent>, check: VirtualFile -> bool)
    ensures Hits(RelevantEvents(events), check) <==> exists i :: 0 <= i < |events| && IsRelevantEvent(events[i]) && Hit(events[i], check)
  {
    var r := RelevantEvents(events);
    if Hits(r, check) {
      var j :| 0 <= j < |r| && Hit(r[j], check);
      assert r[j] in events;
      var i :| 0 <= i < |events| && events[i] == r[j];
      assert IsRelevantEvent(events[i]);
    }
    if exists i :: 0 <= i < |events| && IsRelevantEvent(events[i]) && Hit(events[i], check) {
      var i :| 0 <= i < |events| && IsRelevantEvent(events[i]) && Hit(events[i], check);
      assert events[i] in r;
      var j :| 0 <= j < |r| && r[j] == events[i];
      assert Hit(r[j], check);
    }
  }

  /** A tracker: the modification count and the batches `after` has scheduled but not yet run. */
  class LibraryModificationTracker {
    var modificationCount: nat
    var scheduled: seq<seq<VFileEvent>>
    constructor ()
      ensures modificationCount == 0 && scheduled == []
    {
      modificationCount := 0;
      scheduled := [];
    }

    /** `incModificationCount`. */
    method IncModificationCount()
      modifies this`modificationCount
      ensures modificationCount == old(modificationCount) + 1
    {
      modificationCount := modificationCount + 1;
    }

    /**
     * `processBulk`: at the first valid event whose file passes the check the count is
     * bumped and the rest of the batch is skipped; a batch bumps it at most once.
     */
    method ProcessBulk(events: seq<VFileEvent>, check: VirtualFile -> bool)
      modifies this`modificationCount
      ensures modificationCount == old(modificationCount) + (if Hits(events, check) then 1 else 0)
    {
      for i := 0 to |events|
        invariant modificationCount == old(modificationCount)
        invariant forall k :: 0 <= k < i ==> !Hit(events[k], check)
      {
        var event := events[i];
        if event.isValid {
          var file := event.file;
          if file.Some? && check(file.value) {
            IncModificationCount();
            return;
          }
        }
      }
    }

    /** `before`: every event is checked against library classes, as the index answers before the change. */
    method Before(events: seq<VFileEvent>, index: FileIndex)
      modifies this`modificationCount
      ensures modificationCount == old(modificationCount) + (if Hits(events, BeforeCheck(index)) then 1 else 0)
    {
      ProcessBulk(events, BeforeCheck(index));
    }

    /** `after`: the relevant events, when there are any, are scheduled to be processed later; nothing is counted now. */
    method After(events: seq<VFileEvent>)
      modifies this`scheduled
      ensures RelevantEvents(events) == [] ==> scheduled == old(scheduled)
      ensures RelevantEvents(events) != [] ==> scheduled == old(scheduled) + [RelevantEvents(events)]
    {
      var createEvents := RelevantEvents(events);
      if |createEvents| > 0 {
        scheduled := scheduled + [createEvents];
      }
    }

    /**
     * The scheduled action of `after`, run for the oldest batch: library classes or library
     * archive roots, as the index answers when the action runs.
     */
    method RunScheduled(index: FileIndex)
      requires scheduled != []
      modifies this
      ensures scheduled == old(scheduled[1..])
      ensures modificationCount == old(modificationCount) + (if Hits(old(scheduled[0]), AfterCheck(index)) then 1 else 0)
    {
      var batch := scheduled[0];
      scheduled := scheduled[1..];
      ProcessBulk(batch, AfterCheck(index));
    }

    /** `enteredDumbMode`. */
    method EnteredDumbMode()
      modifies this`modificationCount
      ensures modificationCount == old(modificationCount) + 1
    {
      IncModificationCount();
    }

    /** `exitDumbMode`. */
    method ExitDumbMode()
      modifies this`modificationCount
      ensures modificationCount == old(modificationCount) + 1
    {
      IncModificationCount();
    }

    /** `beforeFileTypesChanged`. */
    method BeforeFileTypesChanged()
      modifies this`modificationCount
      ensures modificationCount == old(modificationCount) + 1
    {
      IncModificationCount();
    }

    /** `fileTypesChanged`. */
    method FileTypesChanged()
      modifies this`modificationCount
      ensures modificationCount == old(modificationCount) + 1
    {
      IncModificationCount();
    }
  }
}
