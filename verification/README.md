# RA.Aid core, modelled in Dafny

This project models four sequential pieces of RA.Aid, an agent that plans and
carries out programming tasks with a language model, and proves properties of
them. Nothing here needs the model, the database engine or the console.

- **The agent's memory** (`memory.dfy`, with the id allocator in
  `keyed_store.dfy`) covers `_global_memory` and the tools over it.
  - Key facts, key snippets and tasks are id-keyed stores fed by counters that
    are never lowered.
  - The related files are a set.
  - Research notes, plans and research subtasks are append-only lists.
  - Each tool is a method of the class `GlobalMemory`, proved against a pure
    "state after" function. The lemmas about those functions state the tool
    contracts: ids, counters, swaps, "nothing else changes", idempotence and
    the `get_memory_value` rendering.
- **The key-snippet garbage collector** (`key_snippets_gc.dfy`) covers two
  things.
  - The `delete_key_snippets` tool protects the snippets of the current human
    input. It sorts every requested id into deleted, protected or not found.
    In this model a delete of a row just found always succeeds, so the failed
    list stays empty.
  - The gating of `run_key_snippets_gc_agent`: the partition into eligible and
    protected snippets, whether the agent runs, and the prompt listing. The
    language-model agent is an arbitrary sequence of tool calls.
- **The trajectory repository** (`trajectory.dfy`, with structured values in
  `json_value.dfy`) is a table of recorded agent steps.
  - Structured fields are stored serialised and handed back parsed. The
    serialisation round trip is proved to be the identity.
  - The table belongs to the database connection, and every repository on
    that connection is a view of it. A create from a tool name alone leaves
    every optional field at its default, update is partial, delete reports
    whether a row existed, and the table can be listed or filtered by human
    input.
  - The repository manager publishes the repository into a single process
    slot and clears it on exit.
- **Command-line post-processing** (`cli.dfy`) covers the rules
  `parse_arguments` applies after argparse, and the case-insensitive
  `--log-level` type. Those rules are chat implies human-in-the-loop, model
  defaults, expert defaults by API-key priority, and the usage errors.

`wrappers.dfy` holds `Option` and `Result`. `strings.dfy` holds joining,
decimal rendering of integers and ASCII lower-casing.

## Model

| member | source | states |
|---|---|---|
| Memory.GlobalMemory.constructor | tests/ra_aid/tools/test_memory.py:17-30 | the reset memory: every store empty, every counter 0, no related files |
| Memory.GlobalMemory.EmitKeyFacts | tests/ra_aid/tools/test_memory.py:43-49 | stores each fact under the next counter id, in order, and answers "Facts stored." |
| Memory.EmitKeyFactsSpec | tests/ra_aid/tools/test_memory.py:99-114 | n facts land under ids counter..counter+n-1 in list order; the counter rises by exactly n; earlier facts are kept; nothing else changes |
| KeyedStore.StoredAt | tests/ra_aid/tools/test_memory.py:99-114 | storing a batch adds exactly the ids next..next+n-1, the i-th value under next+i, and keeps every other id |
| KeyedStore.StoredIsFresh | tests/ra_aid/tools/test_memory.py:297-306 | with all ids below the counter, storing overwrites nothing: the store grows by n and the ids stay below the new counter |
| Memory.GlobalMemory.DeleteKeyFacts | tests/ra_aid/tools/test_memory.py:51-71 | deletes each listed fact that exists, skips absent ids, and answers "Facts deleted." |
| Memory.DeleteKeyFactsSpec | tests/ra_aid/tools/test_memory.py:116-131 | a fact survives if and only if it was not listed; survivors keep their values; the counter is unchanged; deleting twice equals deleting once |
| KeyedStore.RemovedAt | tests/ra_aid/tools/test_memory.py:116-131 | bulk deletion keeps exactly the unlisted ids, each with its old value |
| KeyedStore.RemovedIdempotent | tests/ra_aid/tools/test_memory.py:61-71 | deleting ids that are already gone changes nothing |
| KeyedStore.RemovedKeepsIds | tests/ra_aid/tools/test_memory.py:294-295 | deletion never adds ids, so every id stays below the unchanged counter |
| Memory.GlobalMemory.EmitKeySnippets | tests/ra_aid/tools/test_memory.py:133-162 | stores each snippet under the next counter id, notes its file, and answers "Snippets stored." |
| Memory.EmitKeySnippetsSpec | tests/ra_aid/tools/test_memory.py:248-283 | each snippet lands under a fresh id in list order; the counter rises by their number; every emitted file becomes related; related files only grow |
| Memory.EmitKeySnippetsConsistent | tests/ra_aid/tools/test_memory.py:273-277 | after an emit, every stored snippet's file is still among the related files |
| Memory.StoredFilesCovered | tests/ra_aid/tools/test_memory.py:304-308 | adding a batch and its files keeps every stored snippet's file covered |
| Memory.FilePathsAt | tests/ra_aid/tools/test_memory.py:276-277 | the files of a batch are exactly the files its snippets name |
| Memory.GlobalMemory.DeleteKeySnippets | tests/ra_aid/tools/test_memory.py:164-217 | deletes each listed snippet that exists (an empty list deletes nothing) and answers "Snippets deleted." |
| Memory.DeleteKeySnippetsSpec | tests/ra_aid/tools/test_memory.py:285-318 | a snippet survives if and only if it was not listed; the counter and related files are unchanged; the next emit uses the old counter value as its id |
| Memory.GlobalMemory.EmitRelatedFiles | tests/ra_aid/tools/test_memory.py:219-229 | adds the files to the related set and answers "Files noted." |
| Memory.EmitRelatedFilesSpec | tests/ra_aid/tools/test_memory.py:235-246 | a file is related after the call if and only if it was before or was listed; already-noted files change nothing; the call is idempotent |
| Memory.GlobalMemory.GetRelatedFiles | tests/ra_aid/tools/test_memory.py:231-233 | returns exactly the related set, which includes the file of every stored snippet |
| Memory.GlobalMemory.EmitTask | tests/ra_aid/tools/test_memory.py:320-340 | stores the task under the pre-call counter, raises the counter, and answers "Task #<that id> stored." |
| Memory.EmitTaskSpec | tests/ra_aid/tools/test_memory.py:320-340 | the new id was free; the task is stored there; every other task is kept; the counter rises by one |
| Memory.TaskIdInMessage | tests/ra_aid/tools/test_memory.py:327-338 | the message is "Task #" then digits then " stored.", and the digits parse back to the id |
| Memory.TaskStoredMessageInjective | tests/ra_aid/tools/test_memory.py:327-338 | different task ids give different messages |
| Memory.GlobalMemory.DeleteTasks | tests/ra_aid/tools/test_memory.py:342-365 | deletes each listed task that exists and answers "Tasks deleted." |
| Memory.DeleteTasksSpec | tests/ra_aid/tools/test_memory.py:342-365 | a task survives if and only if it was not listed; ids are not renumbered; the counter is unchanged; the deletion is idempotent |
| Memory.SwapTasks | tests/ra_aid/tools/test_memory.py:367-432 | a self-swap gives "Cannot swap task with itself"; an absent id gives "Invalid task ID(s)"; both leave the store unchanged; otherwise the two descriptions are exchanged, all else is kept, and the answer is "Tasks swapped." |
| Memory.GlobalMemory.SwapTaskOrder | tests/ra_aid/tools/test_memory.py:367-405 | the status and the new task store are those of SwapTasks, and no other part of memory changes |
| KeyedStore.Swapped | tests/ra_aid/tools/test_memory.py:374-381 | exchanging two values keeps the ids and every other value |
| KeyedStore.SwappedInvolution | tests/ra_aid/tools/test_memory.py:375-381 | swapping the same pair twice restores the store |
| Memory.GlobalMemory.RequestResearchSubtask | tests/ra_aid/tools/test_memory.py:434-445 | appends the subtask, changes nothing else, and answers "Subtask added." |
| Memory.GlobalMemory.GetMemoryValue | tests/ra_aid/tools/test_memory.py:73-97 | key facts render as sections ("" when there are none); a list key joins its entries with "\n"; a key memory does not hold gives "" |
| Memory.FactSections | tests/ra_aid/tools/test_memory.py:81-83 | one "## 🔑 Key Fact #id" section per listed id, in that order |
| Memory.RenderNoFacts | tests/ra_aid/tools/test_memory.py:75-76 | an empty fact store renders as "" |
| Memory.RenderEmittedFacts | tests/ra_aid/tools/test_memory.py:78-83 | facts emitted into an empty store render in emission order as numbered sections joined by a blank line |
| Memory.EmittedFactIds | tests/ra_aid/tools/test_memory.py:79-83 | facts emitted into an empty store sit under the ids 0..n-1, the i-th under i |
| Memory.SectionsOfEmittedFacts | tests/ra_aid/tools/test_memory.py:79-83 | those facts produce exactly the sections numbered from 0 in list order |
| KeyedStore.AscendingIds | tests/ra_aid/tools/test_memory.py:79-83 | every listed id is stored and below the counter |
| KeyedStore.AscendingIdsSorted | tests/ra_aid/tools/test_memory.py:79-83 | the id listing is complete and strictly ascending |
| KeyedStore.AscendingIdsEmpty | tests/ra_aid/tools/test_memory.py:75-76 | an empty store lists no ids |
| KeyedStore.AscendingIdsFull | tests/ra_aid/tools/test_memory.py:79-83 | when every id below the counter is present, the listing is 0, 1, ..., n-1 |
| KeySnippetsGc.CurrentHumanInputId | ra_aid/agents/key_snippets_gc_agent.py:45-52 | the current input is the newest one returned, and none when the lookup returns nothing or raises |
| KeySnippetsGc.FailOpen | ra_aid/agents/key_snippets_gc_agent.py:46-52 | a failed or empty lookup leaves no current input, and then no snippet is protected |
| KeySnippetsGc.NewestInputProtected | ra_aid/agents/key_snippets_gc_agent.py:48-61 | after a successful lookup, a snippet is protected if and only if it belongs to the newest input |
| KeySnippetsGc.KeySnippetRepository.constructor | ra_aid/agents/key_snippets_gc_agent.py:25 | the snippet table starts with the given rows, each keyed by its own id |
| KeySnippetsGc.KeySnippetRepository.Get | ra_aid/agents/key_snippets_gc_agent.py:56-57 | finds a row if and only if the id is stored, and returns that row |
| KeySnippetsGc.KeySnippetRepository.Delete | ra_aid/agents/key_snippets_gc_agent.py:66-67 | removes the row; reports success if and only if it existed |
| KeySnippetsGc.KeySnippetRepository.GetAll | ra_aid/agents/key_snippets_gc_agent.py:113-114 | returns every row exactly once: the right count, only stored rows, every row, distinct ids |
| KeySnippetsGc.DeleteKeySnippets | ra_aid/agents/key_snippets_gc_agent.py:29-102 | answers "Snippets deleted." whatever happens; the table and the four lists are those of handling the ids left to right under the looked-up current input |
| KeySnippetsGc.DeleteRunRows | ra_aid/agents/key_snippets_gc_agent.py:54-66 | a row survives if and only if it was not requested or is protected, and survivors are unchanged |
| KeySnippetsGc.DeleteRunAccounting | ra_aid/agents/key_snippets_gc_agent.py:54-79 | as multisets, the ids in the four lists are exactly the requested ids; the failed list is empty because the model's delete never fails |
| KeySnippetsGc.StepReported | ra_aid/agents/key_snippets_gc_agent.py:54-79 | each requested id is reported exactly once, never as failed, since the model's delete of a row just found succeeds |
| KeySnippetsGc.DeleteRunDeleted | ra_aid/agents/key_snippets_gc_agent.py:56-75 | each deleted pair names an unprotected row that existed, with its file, and that row is gone; no id is deleted twice |
| KeySnippetsGc.DeleteRunSkipped | ra_aid/agents/key_snippets_gc_agent.py:56-79 | each protected pair names a row of the current input, with its file, that remains; each not-found id is absent |
| KeySnippetsGc.DeleteRunFailOpen | ra_aid/agents/key_snippets_gc_agent.py:46-66 | with no current input nothing is protected, and every requested row that exists is deleted |
| KeySnippetsGc.DeleteRunEmpty | ra_aid/agents/key_snippets_gc_agent.py:54-79 | an empty request changes no row and reports nothing |
| KeySnippetsGc.Partition | ra_aid/agents/key_snippets_gc_agent.py:131-137 | the partition loop gives the eligible and protected parts; together they have the input's size, and membership follows protection |
| KeySnippetsGc.PartitionCount | ra_aid/agents/key_snippets_gc_agent.py:131-137 | the two parts together are the input, as a multiset |
| KeySnippetsGc.PartitionMembers | ra_aid/agents/key_snippets_gc_agent.py:131-137 | a snippet is eligible if and only if unprotected, and protected if and only if protected; with no current input all are eligible |
| KeySnippetsGc.EligibleRows | ra_aid/agents/key_snippets_gc_agent.py:113-140 | the eligible part of a full listing is exactly the unprotected rows; it is empty if and only if every row is protected |
| KeySnippetsGc.EligibleDistinct | ra_aid/agents/key_snippets_gc_agent.py:142-150 | filtering keeps snippet ids distinct, so the id-keyed dictionary drops no snippet |
| KeySnippetsGc.SnippetEntryHeader | ra_aid/agents/key_snippets_gc_agent.py:152-155 | every prompt entry begins with "Snippet #<id>:" |
| KeySnippetsGc.EntryHeaderInjective | ra_aid/agents/key_snippets_gc_agent.py:153 | two entry headers are equal only for the same id |
| KeySnippetsGc.EntriesNameIds | ra_aid/agents/key_snippets_gc_agent.py:142-155 | the listing has one entry per snippet, in order, each headed by that snippet's id |
| KeySnippetsGc.RunAgent | ra_aid/agents/key_snippets_gc_agent.py:168-179 | the table ends as the calls' deletion runs applied in order; rows are only removed, a row no call names survives, and while every call sees the same current input no protected row is removed |
| KeySnippetsGc.RunKeySnippetsGcAgent | ra_aid/agents/key_snippets_gc_agent.py:105-204 | no agent runs on an empty table or when every row is protected, and then the protected count is the row count; otherwise the prompt lists exactly the eligible rows, once each, the table ends as the agent's calls leave it, and the counts before and after are reported; a row no call names always survives |
| JsonValue.Encode | tests/ra_aid/database/test_trajectory_repository.py:138-140 | a serialised value is a non-empty stream that opens with a value token |
| JsonValue.ParseEncode | tests/ra_aid/database/test_trajectory_repository.py:148-183 | parsing an encoded value gives it back and leaves the following tokens untouched |
| JsonValue.DecodeEncode | tests/ra_aid/database/test_trajectory_repository.py:213-236 | decoding an encoded value is the identity |
| JsonValue.EncodeInjective | tests/ra_aid/database/test_trajectory_repository.py:229-236 | distinct values never share a serialised form |
| Trajectory.ParseSerialise | tests/ra_aid/database/test_trajectory_repository.py:148-183 | reading back a written row gives the same fields, structured ones included |
| Trajectory.SerialisedIsCanonical | tests/ra_aid/database/test_trajectory_repository.py:213-236 | every written row reads back and re-serialises to itself |
| Trajectory.ApplyOverwritesSupplied | tests/ra_aid/database/test_trajectory_repository.py:243-292 | an update changes exactly the supplied fields; the tool name, parameters, record type and human input never change |
| Trajectory.ApplyIdempotent | tests/ra_aid/database/test_trajectory_repository.py:264-292 | an empty update changes nothing; applying the same update twice equals applying it once |
| Trajectory.Database.constructor | tests/ra_aid/database/test_trajectory_repository.py:65-80 | a new connection's Trajectory table is empty and its ids start at 1 |
| Trajectory.Database.Insert | tests/ra_aid/database/test_trajectory_repository.py:132-145 | writing a row on the table directly gives it a fresh id, stores its serialised fields, and changes no other row |
| Trajectory.TrajectoryRepository.constructor | tests/ra_aid/database/test_trajectory_repository.py:216 | a repository is bound to the given connection and leaves its table as it is |
| Trajectory.TrajectoryRepository.Create | tests/ra_aid/database/test_trajectory_repository.py:148-183 | the new row has a fresh id and exactly the given fields; get returns it; get_all grows by one |
| Trajectory.TrajectoryRepository.CreateMinimal | tests/ra_aid/database/test_trajectory_repository.py:186-210 | a trajectory created from a tool name alone, as returned and as get reads it back, has no parameters, result, step data, human input, cost, tokens or error details, and is no error |
| Trajectory.TrajectoryRepository.Get | tests/ra_aid/database/test_trajectory_repository.py:213-240 | finds a trajectory if and only if the id is stored; its fields serialise to the stored row |
| Trajectory.TrajectoryRepository.GetParsedTrajectory | tests/ra_aid/database/test_trajectory_repository.py:393-420 | finds a trajectory if and only if the id is stored; its fields are the parsed row |
| Trajectory.TrajectoryRepository.Update | tests/ra_aid/database/test_trajectory_repository.py:243-296 | for a stored id, writes and returns the updated fields; for an absent id, returns nothing and changes nothing |
| Trajectory.TrajectoryRepository.Delete | tests/ra_aid/database/test_trajectory_repository.py:299-316 | returns true if and only if the id was stored; afterwards get finds nothing |
| Trajectory.TrajectoryRepository.GetAll | tests/ra_aid/database/test_trajectory_repository.py:319-345 | one entry per stored id, each equal to what get returns |
| Trajectory.TrajectoryRepository.Listing | tests/ra_aid/database/test_trajectory_repository.py:319-345 | every stored trajectory exactly once, by ascending id |
| Trajectory.TrajectoryRepository.GetTrajectoriesByHumanInput | tests/ra_aid/database/test_trajectory_repository.py:348-390 | exactly the stored trajectories of that human input, by ascending id |
| Trajectory.Models | tests/ra_aid/database/test_trajectory_repository.py:333-345 | the trajectories for a list of stored ids, in that order |
| Trajectory.SelectMembers | tests/ra_aid/database/test_trajectory_repository.py:373-390 | the selection keeps a trajectory if and only if it belongs to the human input |
| Trajectory.SelectOrdered | tests/ra_aid/database/test_trajectory_repository.py:373-390 | the selection keeps ascending ids ascending |
| Trajectory.RepositoriesShareTable | tests/ra_aid/database/test_trajectory_repository.py:213-225 | a row written on the connection before a repository exists is found by a repository built afterwards; a row one repository creates is found by another on the same connection |
| Trajectory.RepositorySlot.constructor | tests/ra_aid/database/test_trajectory_repository.py:53-62 | the slot starts empty |
| Trajectory.NewTrajectoryRepository | tests/ra_aid/database/test_trajectory_repository.py:451-458 | fails with "Database connection is required" if and only if there is no connection; otherwise gives a new repository on that connection, with its table unchanged |
| Trajectory.GetTrajectoryRepository | tests/ra_aid/database/test_trajectory_repository.py:440-448 | gives the published repository, and fails with "No TrajectoryRepository available" if and only if none is published |
| Trajectory.TrajectoryRepositoryManager.constructor | tests/ra_aid/database/test_trajectory_repository.py:426 | the manager holds the connection and the slot |
| Trajectory.TrajectoryRepositoryManager.Enter | tests/ra_aid/database/test_trajectory_repository.py:426-429 | builds a new repository on the connection, table unchanged, and publishes it; without a connection it fails and publishes nothing |
| Trajectory.TrajectoryRepositoryManager.Exit | tests/ra_aid/database/test_trajectory_repository.py:444-446 | clears the slot |
| Trajectory.ManagerLifecycle | tests/ra_aid/database/test_trajectory_repository.py:423-448 | `__enter__` gives a repository on the connection; a trajectory created through it lands in the connection's table; inside the block the published repository is the very one `__enter__` gave; after the block, asking for it fails with "No TrajectoryRepository available" |
| Cli.DefaultProvider | ra_aid/__main__.py:148-156 | the default provider is "openai" or "anthropic" |
| Cli.DefaultProviderRule | ra_aid/__main__.py:150-154 | the default is "openai" if and only if an OpenAI key is set and no Anthropic key is; an Anthropic key always means "anthropic" |
| Cli.WithModelSpec | ra_aid/__main__.py:324-333 | openai gets "gpt-4o" unless a model is given; anthropic gets the default model unless one is given; another provider with no model fails unless research-only; only the model field changes |
| Cli.WithExpertSpec | ra_aid/__main__.py:336-348 | a given expert provider is kept; otherwise an OpenAI key gives (openai, none), else a DeepSeek key gives (deepseek, deepseek-reasoner), else the main provider and model; only the expert fields change |
| Cli.CheckedSpec | ra_aid/__main__.py:350-362 | fails if and only if the temperature is outside [0.0, 2.0], the recursion limit is not positive, or auto-test has no test command, with the first failing rule's message; otherwise the record passes unchanged |
| Cli.PostProcessErrors | ra_aid/__main__.py:319-362 | post-processing fails if and only if one of the five rules is broken; an unknown provider and a missing model are reported first, with their messages |
| Cli.DefaultProviderOutcome | ra_aid/__main__.py:150-154 | with the provider at its default and no model or expert provider given: only an OpenAI key means OpenAI, "gpt-4o" and an OpenAI expert; an Anthropic key means Anthropic with the configured default model; with no OpenAI key the expert is DeepSeek when its key is set, else Anthropic with the default model |
| Cli.PostProcessResult | ra_aid/__main__.py:315-348 | on success: hil is hil or chat; the model and expert defaults are as above; no other field changes |
| Cli.PostProcessIdempotent | ra_aid/__main__.py:311-364 | post-processing its own successful result again changes nothing |
| Cli.LogLevelTypeSpec | ra_aid/__main__.py:113-119 | a level is accepted if and only if its lowercase form is one of the five names; the result is that lowercase form; case is ignored and acceptance is idempotent |
| Strings.AsciiLowerIdempotent | ra_aid/__main__.py:114 | lower-casing twice is lower-casing once |

## Left out

- `ra_aid/tools/memory.py` is not part of this model. The memory tools follow the behaviour fixed by `tests/ra_aid/tools/test_memory.py`.
- Memory.GlobalMemory.GetMemoryValue: renders key facts by ascending id. The tests fix only the order of facts emitted into an empty store, which is the same order.
- Memory.GlobalMemory.GetMemoryValue: the tests fix "" only for a key memory does not hold. Keys memory holds that are neither `key_facts` nor a list (`key_snippets`, `tasks`, `related_files` and the id counters) are also modelled as "", which is a choice, not known behaviour.
- The work log (`log_work_event`), console panels and logging are left out. They are output only.
- The snippet repository, the human-input repository, the database, Peewee and SQL are left out. The snippet table is an id-keyed map, and the recent-input lookup is a parameter that either returns ids or raises.
- KeySnippetsGc.KeySnippetRepository.GetAll: the order rows come back in is not modelled, so any order is allowed.
- KeySnippetsGc.DeleteKeySnippets: a delete of a row just found always succeeds and nothing raises, so the failed branch (`ra_aid/agents/key_snippets_gc_agent.py:76-77`) is never reached. A delete that reports failure, and a database error from `get` or `delete` that escapes the tool part-way through without "Snippets deleted.", are not modelled.
- KeySnippetsGc.DeleteKeySnippets: the `result_parts` messages are built and then thrown away by the tool, so they are not modelled. The four lists are returned instead.
- The language model, `initialize_llm`, `create_agent`, `run_agent_with_retry` and the prompt template are left out. The agent is an arbitrary sequence of `delete_key_snippets` calls. The prompt is the `formatted_snippets` listing, without the template text around it.
- KeySnippetsGc.RunAgent: protection is proved only when each call's lookup sees the same current input as the gating step. A call whose lookup sees a different current input (a newer human input, or a failed lookup that fails open) may delete snippets that were protected at gating; nothing is promised then.
- Trajectory.Database.Valid: every stored row is one the repository could have written, so its structured fields always decode. A corrupt row, and the error raised when reading one, cannot be represented.
- Structured trajectory fields are an abstract JSON value with an abstract token stream. Separators, whitespace, string escaping and number syntax are not modelled.
- Trajectory.TrajectoryRepository.Create: ids come from a counter starting at 1. Only freshness is promised, not the ids SQLite would choose.
- Trajectory.TrajectoryRepository.CreateMinimal: the tests do not fix the default record type, so it is left empty.
- Costs and temperatures are `real`, not IEEE floats: no NaN and no rounding.
- The `contextvars` slot is modelled as one shared slot, with no context isolation.
- Trajectory.TrajectoryRepositoryManager.Enter: entering while a repository is already published replaces it in the slot. The fail-fast refusal of a second, nested entry is not modelled.
- `main()`, `build_status`, the web UI, `wipe_project_memory` and argparse itself are left out. The parsed options are a record, and the three API keys are optional strings, where an empty string counts as unset.
- `ra_aid/config.py` is not part of this model. `DEFAULT_MODEL` and `VALID_PROVIDERS` are parameters.
- Cli.PostProcessErrors: the argparse `choices` checks on `--provider` and `--expert-provider` happen before post-processing and are not modelled.
- Cli.LogLevelTypeSpec: lower-casing covers ASCII letters only. No non-ASCII text lower-cases to one of the five level names, so acceptance is unaffected. The error message shows non-ASCII letters unchanged.
