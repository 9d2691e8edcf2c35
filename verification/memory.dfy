/**
 * The in-process memory of the agent (`_global_memory` and the tools over it):
 * key facts, key snippets and tasks kept under ids from per-store counters,
 * the related-files set, and the append-only lists of research notes, plans
 * and research subtasks. Every tool changes the shared memory in place and
 * answers with a fixed status string.
 */
module Memory {
  import opened Wrappers
  import opened Strings
  import opened KeyedStore

  /** One key snippet as the tools receive and store it. */
  datatype SnippetInfo = SnippetInfo(filepath: string, lineNumber: int, snippet: string, description: Option<string>)

  /** The value of the whole memory at one moment. */
  datatype MemoryState = MemoryState(
    keyFacts: map<int, string>, keyFactIdCounter: nat,
    keySnippets: map<int, SnippetInfo>, keySnippetIdCounter: nat,
    researchNotes: seq<string>, plans: seq<string>,
    tasks: map<int, string>, taskIdCounter: nat,
    researchSubtasks: seq<string>, relatedFiles: set<string>)

  /**
   * The memory invariants: each store's ids were handed out by its counter,
   * and every stored snippet's file is among the related files.
   */
  ghost predicate Consistent(s: MemoryState)
  {
    && IdsBelow(s.keyFacts, s.keyFactIdCounter)
    && IdsBelow(s.keySnippets, s.keySnippetIdCounter)
    && IdsBelow(s.tasks, s.taskIdCounter)
    && (forall k :: k in s.keySnippets ==> s.keySnippets[k].filepath in s.relatedFiles)
  }

  /** The files named by a batch of snippets. */
  function FilePaths(snippets: seq<SnippetInfo>): set<string>
  {
    if snippets == [] then {}
    else FilePaths(snippets[..|snippets| - 1]) + {snippets[|snippets| - 1].filepath}
  }

  lemma {:induction false} FilePathsAt(snippets: seq<SnippetInfo>)
    ensures forall f :: f in FilePaths(snippets) <==> exists i :: 0 <= i < |snippets| && snippets[i].filepath == f
  {
    if snippets != [] {
      var init := snippets[..|snippets| - 1];
      FilePathsAt(init);
      assert forall i :: 0 <= i < |init| ==> init[i] == snippets[i];
    }
  }

  lemma {:induction false} FilePathsContain(snippets: seq<SnippetInfo>)
    ensures forall i :: 0 <= i < |snippets| ==> snippets[i].filepath in FilePaths(snippets)
  {
    FilePathsAt(snippets);
    forall i | 0 <= i < |snippets|
      ensures snippets[i].filepath in FilePaths(snippets)
    {
    }
  }

  /** The memory after `emit_key_facts(facts)`. */
  function AfterEmitKeyFacts(s: MemoryState, facts: seq<string>): MemoryState
  {
    s.(keyFacts := Stored(s.keyFacts, s.keyFactIdCounter, facts),
       keyFactIdCounter := s.keyFactIdCounter + |facts|)
  }

  /**
   * Emitting n facts stores them under the ids counter .. counter + n - 1 in
   * list order, raises the counter by exactly n, keeps every earlier fact and
   * changes nothing else.
   */
  lemma EmitKeyFactsSpec(s: MemoryState, facts: seq<string>)
    requires Consistent(s)
    ensures var r := AfterEmitKeyFacts(s, facts);
      && Consistent(r)
      && r.keyFactIdCounter == s.keyFactIdCounter + |facts|
      && (forall k :: s.keyFactIdCounter <= k < s.keyFactIdCounter + |facts| ==>
            k in r.keyFacts && r.keyFacts[k] == facts[k - s.keyFactIdCounter])
      && (forall k :: k in r.keyFacts <==> k in s.keyFacts || s.keyFactIdCounter <= k < r.keyFactIdCounter)
      && (forall k :: k in s.keyFacts ==> r.keyFacts[k] == s.keyFacts[k])
      && |r.keyFacts| == |s.keyFacts| + |facts|
      && r == s.(keyFacts := r.keyFacts, keyFactIdCounter := r.keyFactIdCounter)
  {
    StoredAt(s.keyFacts, s.keyFactIdCounter, facts);
    StoredIsFresh(s.keyFacts, s.keyFactIdCounter, facts);
  }

  /** The memory after `delete_key_facts(ids)`. */
  function AfterDeleteKeyFacts(s: MemoryState, ids: seq<int>): MemoryState
  {
    s.(keyFacts := Removed(s.keyFacts, ids))
  }

  /**
   * Deleting facts removes exactly the listed ids that exist, leaves every
   * other fact as it was, ignores absent or already-deleted ids, never touches
   * the counter, and doing it twice is the same as doing it once.
   */
  lemma DeleteKeyFactsSpec(s: MemoryState, ids: seq<int>)
    requires Consistent(s)
    ensures var r := AfterDeleteKeyFacts(s, ids);
      && Consistent(r)
      && (forall k :: k in r.keyFacts <==> k in s.keyFacts && k !in ids)
      && (forall k :: k in r.keyFacts ==> r.keyFacts[k] == s.keyFacts[k])
      && r.keyFactIdCounter == s.keyFactIdCounter
      && AfterDeleteKeyFacts(r, ids) == r
      && r == s.(keyFacts := r.keyFacts)
  {
    RemovedAt(s.keyFacts, ids);
    RemovedKeepsIds(s.keyFacts, s.keyFactIdCounter, ids);
    RemovedIdempotent(s.keyFacts, ids);
  }

  /** The memory after `emit_key_snippets(snippets)`: stored snippets and their files noted. */
  function AfterEmitKeySnippets(s: MemoryState, snippets: seq<SnippetInfo>): MemoryState
  {
    s.(keySnippets := Stored(s.keySnippets, s.keySnippetIdCounter, snippets),
       keySnippetIdCounter := s.keySnippetIdCounter + |snippets|,
       relatedFiles := s.relatedFiles + FilePaths(snippets))
  }

  /**
   * Emitting snippets stores each under a fresh id in list order, raises the
   * counter by their number, and adds every emitted file to the related files,
   * which only grow.
   */
  lemma EmitKeySnippetsSpec(s: MemoryState, snippets: seq<SnippetInfo>)
    requires Consistent(s)
    ensures Consistent(AfterEmitKeySnippets(s, snippets))
    ensures AfterEmitKeySnippets(s, snippets).keySnippetIdCounter == s.keySnippetIdCounter + |snippets|
    ensures forall k :: s.keySnippetIdCounter <= k < s.keySnippetIdCounter + |snippets| ==>
      && k in AfterEmitKeySnippets(s, snippets).keySnippets
      && AfterEmitKeySnippets(s, snippets).keySnippets[k] == snippets[k - s.keySnippetIdCounter]
    ensures forall k :: k in s.keySnippets ==>
      k in AfterEmitKeySnippets(s, snippets).keySnippets && AfterEmitKeySnippets(s, snippets).keySnippets[k] == s.keySnippets[k]
    ensures forall i :: 0 <= i < |snippets| ==> snippets[i].filepath in AfterEmitKeySnippets(s, snippets).relatedFiles
    ensures s.relatedFiles <= AfterEmitKeySnippets(s, snippets).relatedFiles
    ensures AfterEmitKeySnippets(s, snippets) == s.(keySnippets := AfterEmitKeySnippets(s, snippets).keySnippets,
                                                   keySnippetIdCounter := AfterEmitKeySnippets(s, snippets).keySnippetIdCounter,
                                                   relatedFiles := AfterEmitKeySnippets(s, snippets).relatedFiles)
  {
    StoredIsFresh(s.keySnippets, s.keySnippetIdCounter, snippets);
    StoredAt(s.keySnippets, s.keySnippetIdCounter, snippets);
    FilePathsContain(snippets);
    EmitKeySnippetsConsistent(s, snippets);
  }

  lemma EmitKeySnippetsConsistent(s: MemoryState, snippets: seq<SnippetInfo>)
    requires Consistent(s)
    ensures Consistent(AfterEmitKeySnippets(s, snippets))
  {
    StoredIsFresh(s.keySnippets, s.keySnippetIdCounter, snippets);
    StoredFilesCovered(s.keySnippets, s.keySnippetIdCounter, snippets, s.relatedFiles);
  }

  /** A store whose files all lie in `files` keeps that property once a batch and its files are added. */
  lemma {:induction false} StoredFilesCovered(m: map<int, SnippetInfo>, next: int, snippets: seq<SnippetInfo>, files: set<string>)
    requires forall k :: k in m ==> m[k].filepath in files
    ensures forall k :: k in Stored(m, next, snippets) ==>
      Stored(m, next, snippets)[k].filepath in files + FilePaths(snippets)
  {
    if snippets != [] {
      var init := snippets[..|snippets| - 1];
      StoredFilesCovered(m, next, init, files);
      var r0, r := Stored(m, next, init), Stored(m, next, snippets);
      assert r == r0[next + |init| := snippets[|init|]];
      assert FilePaths(snippets) == FilePaths(init) + {snippets[|init|].filepath};
    }
  }

  /** The memory after `delete_key_snippets(ids)`: the related files are kept. */
  function AfterDeleteKeySnippets(s: MemoryState, ids: seq<int>): MemoryState
  {
    s.(keySnippets := Removed(s.keySnippets, ids))
  }

  /**
   * Deleting snippets removes exactly the listed ids that exist, never lowers
   * the counter, keeps the related files, and the next emitted snippet gets the
   * id the counter stood at before the deletion.
   */
  lemma DeleteKeySnippetsSpec(s: MemoryState, ids: seq<int>, next: SnippetInfo)
    requires Consistent(s)
    ensures var r := AfterDeleteKeySnippets(s, ids);
      && Consistent(r)
      && (forall k :: k in r.keySnippets <==> k in s.keySnippets && k !in ids)
      && (forall k :: k in r.keySnippets ==> r.keySnippets[k] == s.keySnippets[k])
      && r.keySnippetIdCounter == s.keySnippetIdCounter
      && r.relatedFiles == s.relatedFiles
      && r == s.(keySnippets := r.keySnippets)
      && AfterEmitKeySnippets(r, [next]).keySnippets == r.keySnippets[s.keySnippetIdCounter := next]
  {
    RemovedAt(s.keySnippets, ids);
    RemovedKeepsIds(s.keySnippets, s.keySnippetIdCounter, ids);
    var r := AfterDeleteKeySnippets(s, ids);
    assert [next][..0] == [];
    assert Stored(r.keySnippets, r.keySnippetIdCounter, [next])
      == Stored(r.keySnippets, r.keySnippetIdCounter, [])[r.keySnippetIdCounter := next];
    forall k | k in r.keySnippets
      ensures r.keySnippets[k].filepath in r.relatedFiles
    {
      assert k in s.keySnippets;
    }
  }

  /** The memory after `emit_related_files(files)`. */
  function AfterEmitRelatedFiles(s: MemoryState, files: seq<string>): MemoryState
  {
    s.(relatedFiles := s.relatedFiles + (set f | f in files))
  }

  /**
   * Noting files is set union: every listed file is then related, nothing is
   * removed, files already noted (or repeated in one call) change nothing, and
   * noting the same files twice is the same as once.
   */
  lemma EmitRelatedFilesSpec(s: MemoryState, files: seq<string>)
    requires Consistent(s)
    ensures var r := AfterEmitRelatedFiles(s, files);
      && Consistent(r)
      && (forall f :: f in r.relatedFiles <==> f in s.relatedFiles || f in files)
      && ((forall i :: 0 <= i < |files| ==> files[i] in s.relatedFiles) ==> r == s)
      && AfterEmitRelatedFiles(r, files) == r
      && r == s.(relatedFiles := r.relatedFiles)
  {
    var r := AfterEmitRelatedFiles(s, files);
    if forall i :: 0 <= i < |files| ==> files[i] in s.relatedFiles {
      assert r.relatedFiles == s.relatedFiles;
    }
    assert AfterEmitRelatedFiles(r, files).relatedFiles == r.relatedFiles;
  }

  /** The memory after `emit_task(task)`. */
  function AfterEmitTask(s: MemoryState, task: string): MemoryState
  {
    s.(tasks := s.tasks[s.taskIdCounter := task], taskIdCounter := s.taskIdCounter + 1)
  }

  /** The memory after `delete_tasks(ids)`. */
  function AfterDeleteTasks(s: MemoryState, ids: seq<int>): MemoryState
  {
    s.(tasks := Removed(s.tasks, ids))
  }

  /** A new task takes the counter's id, which no task holds, and raises the counter by one. */
  lemma EmitTaskSpec(s: MemoryState, task: string)
    requires Consistent(s)
    ensures var e := AfterEmitTask(s, task);
      && Consistent(e)
      && s.taskIdCounter !in s.tasks
      && e.tasks[s.taskIdCounter] == task
      && (forall k :: k in s.tasks ==> k in e.tasks && e.tasks[k] == s.tasks[k])
      && |e.tasks| == |s.tasks| + 1
      && e.taskIdCounter == s.taskIdCounter + 1
  {
  }

  /**
   * Deleting tasks removes exactly the listed ids that exist, renumbers
   * nothing, leaves the counter alone and is idempotent.
   */
  lemma DeleteTasksSpec(s: MemoryState, ids: seq<int>)
    requires Consistent(s)
    ensures var d := AfterDeleteTasks(s, ids);
      && Consistent(d)
      && (forall k :: k in d.tasks <==> k in s.tasks && k !in ids)
      && (forall k :: k in d.tasks ==> d.tasks[k] == s.tasks[k])
      && d.taskIdCounter == s.taskIdCounter
      && AfterDeleteTasks(d, ids) == d
  {
    RemovedAt(s.tasks, ids);
    RemovedKeepsIds(s.tasks, s.taskIdCounter, ids);
    RemovedIdempotent(s.tasks, ids);
  }

  /** The answer of `emit_task`: "Task #<id> stored." */
  function TaskStoredMessage(id: nat): string
  {
    "Task #" + NatToString(id) + " stored."
  }

  /** The id can be read back from the digits between "Task #" and " stored.". */
  lemma TaskIdInMessage(id: nat)
    ensures var msg := TaskStoredMessage(id);
      && |msg| > 14 && msg[..6] == "Task #" && msg[|msg| - 8..] == " stored."
      && (forall i :: 6 <= i < |msg| - 8 ==> IsDigit(msg[i]))
      && ParseDecimal(msg[6..|msg| - 8]) == id
  {
    var msg := TaskStoredMessage(id);
    assert msg[6..|msg| - 8] == NatToString(id);
    ParseNatToString(id);
  }

  /** Different tasks are announced with different messages. */
  lemma TaskStoredMessageInjective(a: nat, b: nat)
    requires TaskStoredMessage(a) == TaskStoredMessage(b)
    ensures a == b
  {
    TaskIdInMessage(a);
    TaskIdInMessage(b);
  }

  /**
   * `swap_task_order`: the status and the new task store. A task cannot be
   * swapped with itself; otherwise both ids must exist, and then their
   * descriptions are exchanged.
   */
  function SwapTasks(tasks: map<int, string>, id1: int, id2: int): (r: (string, map<int, string>))
    ensures r.0 == "Cannot swap task with itself" <==> id1 == id2
    ensures r.0 == "Invalid task ID(s)" <==> id1 != id2 && (id1 !in tasks || id2 !in tasks)
    ensures r.0 == "Tasks swapped." <==> id1 != id2 && id1 in tasks && id2 in tasks
    ensures r.0 != "Tasks swapped." ==> r.1 == tasks
    ensures r.0 == "Tasks swapped." ==>
      && r.1.Keys == tasks.Keys
      && r.1[id1] == tasks[id2] && r.1[id2] == tasks[id1]
      && (forall k :: k in tasks && k != id1 && k != id2 ==> r.1[k] == tasks[k])
  {
    if id1 == id2 then ("Cannot swap task with itself", tasks)
    else if id1 !in tasks || id2 !in tasks then ("Invalid task ID(s)", tasks)
    else ("Tasks swapped.", Swapped(tasks, id1, id2))
  }

  /** One key fact as `get_memory_value` renders it. */
  function FactSection(id: nat, fact: string): string
  {
    "## \U{1F511} Key Fact #" + NatToString(id) + "\n\n" + fact
  }

  /** The sections of the listed facts, in the order of `ids`. */
  function FactSections(facts: map<int, string>, ids: seq<int>): (sections: seq<string>)
    requires forall i :: 0 <= i < |ids| ==> ids[i] in facts && ids[i] >= 0
    ensures |sections| == |ids|
    ensures forall i :: 0 <= i < |ids| ==> sections[i] == FactSection(ids[i], facts[ids[i]])
  {
    if ids == [] then [] else [FactSection(ids[0], facts[ids[0]])] + FactSections(facts, ids[1..])
  }

  /** The key facts, by ascending id, as markdown sections separated by a blank line. */
  function RenderKeyFacts(facts: map<int, string>, counter: nat): string
  {
    Join(FactSections(facts, AscendingIds(facts, counter)), "\n\n")
  }

  /** An empty fact store renders as the empty string. */
  lemma RenderNoFacts(counter: nat)
    ensures RenderKeyFacts(map[], counter) == ""
  {
    var empty: map<int, string> := map[];
    AscendingIdsEmpty(empty, counter);
  }

  /** The sections of facts numbered from 0 in list order. */
  function NumberedSections(facts: seq<string>): seq<string>
  {
    seq(|facts|, i requires 0 <= i < |facts| => FactSection(i, facts[i]))
  }

  /**
   * Facts emitted into an empty store render, in emission order, as
   * "## 🔑 Key Fact #i\n\n<fact i>" joined by blank lines.
   */
  lemma RenderEmittedFacts(facts: seq<string>)
    ensures RenderKeyFacts(Stored(map[], 0, facts), |facts|) == Join(NumberedSections(facts), "\n\n")
  {
    var m := Stored(map[], 0, facts);
    EmittedFactIds(facts);
    SectionsOfEmittedFacts(m, facts);
  }

  /** Facts emitted into an empty store hold the ids 0 .. n - 1, the i-th fact under id i. */
  lemma EmittedFactIds(facts: seq<string>)
    ensures var m := Stored(map[], 0, facts);
      && |AscendingIds(m, |facts|)| == |facts|
      && (forall i :: 0 <= i < |facts| ==> AscendingIds(m, |facts|)[i] == i)
      && forall i :: 0 <= i < |facts| ==> i in m && m[i] == facts[i]
  {
    var m := Stored(map[], 0, facts);
    StoredAt(map[], 0, facts);
    AscendingIdsFull(m, |facts|);
  }

  lemma SectionsOfEmittedFacts(m: map<int, string>, facts: seq<string>)
    requires |AscendingIds(m, |facts|)| == |facts|
    requires forall i :: 0 <= i < |facts| ==> AscendingIds(m, |facts|)[i] == i
    requires forall i :: 0 <= i < |facts| ==> i in m && m[i] == facts[i]
    ensures FactSections(m, AscendingIds(m, |facts|)) == NumberedSections(facts)
  {
    var ids := AscendingIds(m, |facts|);
    var sections := FactSections(m, ids);
    var expected := NumberedSections(facts);
    forall i | 0 <= i < |facts|
      ensures sections[i] == expected[i]
    {
      assert ids[i] == i;
    }
  }

  /** The list that `get_memory_value` joins for a list-valued key, if `key` is one. */
  function ListEntries(s: MemoryState, key: string): Option<seq<string>>
  {
    if key == "research_notes" then Some(s.researchNotes)
    else if key == "plans" then Some(s.plans)
    else if key == "research_subtasks" then Some(s.researchSubtasks)
    else None
  }

  /** The global memory: one shared instance per process, reset by the constructor. */
  class GlobalMemory {
    var keyFacts: map<int, string>
    var keyFactIdCounter: nat
    var keySnippets: map<int, SnippetInfo>
    var keySnippetIdCounter: nat
    var researchNotes: seq<string>
    var plans: seq<string>
    var tasks: map<int, string>
    var taskIdCounter: nat
    var researchSubtasks: seq<string>
    var relatedFiles: set<string>

    function State(): MemoryState
      reads this
    {
      MemoryState(keyFacts, keyFactIdCounter, keySnippets, keySnippetIdCounter,
                  researchNotes, plans, tasks, taskIdCounter, researchSubtasks, relatedFiles)
    }

    ghost predicate Valid()
      reads this
    {
      Consistent(State())
    }

    /** The reset state: every store empty and every counter at zero. */
    constructor()
      ensures Valid()
      ensures State() == MemoryState(map[], 0, map[], 0, [], [], map[], 0, [], {})
    {
      keyFacts, keyFactIdCounter := map[], 0;
      keySnippets, keySnippetIdCounter := map[], 0;
      researchNotes, plans := [], [];
      tasks, taskIdCounter := map[], 0;
      researchSubtasks, relatedFiles := [], {};
    }

    /** `emit_key_facts`: store each fact under the next id, in order. */
    method EmitKeyFacts(facts: seq<string>) returns (status: string)
      requires Valid()
      modifies this
      ensures Valid()
      ensures status == "Facts stored."
      ensures State() == AfterEmitKeyFacts(old(State()), facts)
    {
      ghost var s0 := State();
      var i := 0;
      while i < |facts|
        invariant 0 <= i <= |facts|
        invariant State() == AfterEmitKeyFacts(s0, facts[..i])
      {
        assert facts[..i + 1][..i] == facts[..i];
        var factId := keyFactIdCounter;
        keyFactIdCounter := keyFactIdCounter + 1;
        keyFacts := keyFacts[factId := facts[i]];
        i := i + 1;
      }
      assert facts[..i] == facts;
      EmitKeyFactsSpec(s0, facts);
      status := "Facts stored.";
    }

    /** `delete_key_facts`: delete each listed fact that exists; absent ids are skipped. */
    method DeleteKeyFacts(factIds: seq<int>) returns (status: string)
      requires Valid()
      modifies this
      ensures Valid()
      ensures status == "Facts deleted."
      ensures State() == AfterDeleteKeyFacts(old(State()), factIds)
    {
      ghost var s0 := State();
      var i := 0;
      while i < |factIds|
        invariant 0 <= i <= |factIds|
        invariant State() == AfterDeleteKeyFacts(s0, factIds[..i])
      {
        assert factIds[..i + 1][..i] == factIds[..i];
        var factId := factIds[i];
        if factId in keyFacts {
          keyFacts := keyFacts - {factId};
        }
        i := i + 1;
      }
      assert factIds[..i] == factIds;
      DeleteKeyFactsSpec(s0, factIds);
      status := "Facts deleted.";
    }

    /**
     * `emit_key_snippets`: store each snippet under the next id, in order, and
     * note its file among the related files.
     */
    method EmitKeySnippets(snippets: seq<SnippetInfo>) returns (status: string)
      requires Valid()
      modifies this
      ensures Valid()
      ensures status == "Snippets stored."
      ensures State() == AfterEmitKeySnippets(old(State()), snippets)
    {
      ghost var s0 := State();
      var i := 0;
      while i < |snippets|
        invariant 0 <= i <= |snippets|
        invariant State() == AfterEmitKeySnippets(s0, snippets[..i])
      {
        assert snippets[..i + 1][..i] == snippets[..i];
        var snippetId := keySnippetIdCounter;
        keySnippetIdCounter := keySnippetIdCounter + 1;
        keySnippets := keySnippets[snippetId := snippets[i]];
        relatedFiles := relatedFiles + {snippets[i].filepath};
        i := i + 1;
      }
      assert snippets[..i] == snippets;
      EmitKeySnippetsSpec(s0, snippets);
      status := "Snippets stored.";
    }

    /**
     * `delete_key_snippets`: delete each listed snippet that exists. The
     * related files and the counter are left alone.
     */
    method DeleteKeySnippets(snippetIds: seq<int>) returns (status: string)
      requires Valid()
      modifies this
      ensures Valid()
      ensures status == "Snippets deleted."
      ensures State() == AfterDeleteKeySnippets(old(State()), snippetIds)
    {
      ghost var s0 := State();
      var i := 0;
      while i < |snippetIds|
        invariant 0 <= i <= |snippetIds|
        invariant State() == AfterDeleteKeySnippets(s0, snippetIds[..i])
      {
        assert snippetIds[..i + 1][..i] == snippetIds[..i];
        var snippetId := snippetIds[i];
        if snippetId in keySnippets {
          keySnippets := keySnippets - {snippetId};
        }
        i := i + 1;
      }
      assert snippetIds[..i] == snippetIds;
      DeleteKeySnippetsSpec(s0, snippetIds, SnippetInfo("", 0, "", None));
      status := "Snippets deleted.";
    }

    /** `emit_related_files`: set union; files already noted change nothing. */
    method EmitRelatedFiles(files: seq<string>) returns (status: string)
      requires Valid()
      modifies this
      ensures Valid()
      ensures status == "Files noted."
      ensures State() == AfterEmitRelatedFiles(old(State()), files)
    {
      relatedFiles := relatedFiles + (set f | f in files);
      status := "Files noted.";
    }

    /** `get_related_files`: every file a stored snippet comes from is among them. */
    function GetRelatedFiles(): (files: set<string>)
      reads this
      requires Valid()
      ensures files == relatedFiles
      ensures forall k :: k in keySnippets ==> keySnippets[k].filepath in files
    {
      relatedFiles
    }

    /** `emit_task`: store the task under the next id and announce that id. */
    method EmitTask(task: string) returns (status: string)
      requires Valid()
      modifies this
      ensures Valid()
      ensures status == TaskStoredMessage(old(taskIdCounter))
      ensures State() == AfterEmitTask(old(State()), task)
    {
      ghost var s0 := State();
      var taskId := taskIdCounter;
      tasks := tasks[taskId := task];
      taskIdCounter := taskIdCounter + 1;
      status := TaskStoredMessage(taskId);
      EmitTaskSpec(s0, task);
    }

    /** `delete_tasks`: delete each listed task that exists; ids are never renumbered. */
    method DeleteTasks(taskIds: seq<int>) returns (status: string)
      requires Valid()
      modifies this
      ensures Valid()
      ensures status == "Tasks deleted."
      ensures State() == AfterDeleteTasks(old(State()), taskIds)
    {
      ghost var s0 := State();
      var i := 0;
      while i < |taskIds|
        invariant 0 <= i <= |taskIds|
        invariant State() == AfterDeleteTasks(s0, taskIds[..i])
      {
        assert taskIds[..i + 1][..i] == taskIds[..i];
        var taskId := taskIds[i];
        if taskId in tasks {
          tasks := tasks - {taskId};
        }
        i := i + 1;
      }
      assert taskIds[..i] == taskIds;
      DeleteTasksSpec(s0, taskIds);
      status := "Tasks deleted.";
    }

    /** `swap_task_order`: exchange the descriptions stored at two distinct existing ids. */
    method SwapTaskOrder(id1: int, id2: int) returns (status: string)
      requires Valid()
      modifies this
      ensures Valid()
      ensures (status, tasks) == SwapTasks(old(tasks), id1, id2)
      ensures State() == old(State()).(tasks := tasks)
    {
      if id1 == id2 {
        status := "Cannot swap task with itself";
      } else if id1 !in tasks || id2 !in tasks {
        status := "Invalid task ID(s)";
      } else {
        tasks := tasks[id1 := tasks[id2]][id2 := tasks[id1]];
        status := "Tasks swapped.";
      }
    }

    /** `request_research_subtask`: append the subtask. */
    method RequestResearchSubtask(subtask: string) returns (status: string)
      requires Valid()
      modifies this
      ensures Valid()
      ensures status == "Subtask added."
      ensures researchSubtasks == old(researchSubtasks) + [subtask]
      ensures State() == old(State()).(researchSubtasks := researchSubtasks)
    {
      researchSubtasks := researchSubtasks + [subtask];
      status := "Subtask added.";
    }

    /**
     * `get_memory_value`: the key facts as markdown sections, a list-valued
     * entry joined by newlines, and "" for any other key.
     */
    function GetMemoryValue(key: string): (text: string)
      reads this
      requires Valid()
      ensures key == "key_facts" && keyFacts == map[] ==> text == ""
      ensures key == "key_facts" ==> text == RenderKeyFacts(keyFacts, keyFactIdCounter)
      ensures ListEntries(State(), key).Some? ==> text == Join(ListEntries(State(), key).value, "\n")
      ensures key != "key_facts" && ListEntries(State(), key).None? ==> text == ""
    {
      if key == "key_facts" then
        RenderNoFacts(keyFactIdCounter);
        RenderKeyFacts(keyFacts, keyFactIdCounter)
      else match ListEntries(State(), key)
        case Some(entries) => Join(entries, "\n")
        case None => ""
    }
  }
}
