/**
 * The key-snippet garbage collector: the `delete_key_snippets` tool, which
 * the collecting agent calls, and the gating of `run_key_snippets_gc_agent`,
 * which protects the snippets of the current request and decides whether the
 * agent runs at all.
 */
module KeySnippetsGc {
  import opened Wrappers
  import opened Strings

  /** A stored key snippet, as the snippet repository returns it. */
  datatype KeySnippet = KeySnippet(
    id: int, filepath: string, lineNumber: int, snippet: string,
    description: Option<string>, humanInputId: Option<int>)

  /** What `human_input_repository.get_recent(1)` did: return some input ids, newest first, or raise. */
  datatype RecentLookup = Returned(ids: seq<int>) | Raised(message: string)

  /**
   * The id of the current human input: the newest one, or none when the
   * lookup returned nothing or raised (the error is only reported).
   */
  function CurrentHumanInputId(lookup: RecentLookup): Option<int>
  {
    if lookup.Returned? && |lookup.ids| > 0 then Some(lookup.ids[0]) else None
  }

  /** A snippet is protected when it belongs to the current human input. */
  predicate IsProtected(s: KeySnippet, current: Option<int>)
  {
    current.Some? && s.humanInputId == Some(current.value)
  }

  /** A failed or empty lookup leaves no current input, and then nothing is protected. */
  lemma FailOpen(lookup: RecentLookup, s: KeySnippet)
    requires lookup.Raised? || lookup == Returned([])
    ensures CurrentHumanInputId(lookup) == None
    ensures !IsProtected(s, CurrentHumanInputId(lookup))
  {
  }

  /** A successful lookup makes the newest input current, and its snippets are exactly the protected ones. */
  lemma NewestInputProtected(ids: seq<int>, s: KeySnippet)
    requires |ids| > 0
    ensures CurrentHumanInputId(Returned(ids)) == Some(ids[0])
    ensures IsProtected(s, CurrentHumanInputId(Returned(ids))) <==> s.humanInputId == Some(ids[0])
  {
  }

  /** The snippet table: rows keyed by their own id. */
  class KeySnippetRepository {
    var rows: map<int, KeySnippet>

    ghost predicate Valid()
      reads this
    {
      forall k :: k in rows ==> rows[k].id == k
    }

    constructor(initial: map<int, KeySnippet>)
      requires forall k :: k in initial ==> initial[k].id == k
      ensures Valid()
      ensures rows == initial
    {
      rows := initial;
    }

    /** `get`: the row with that id, if any. */
    method Get(id: int) returns (r: Option<KeySnippet>)
      requires Valid()
      ensures r.Some? <==> id in rows
      ensures r.Some? ==> r.value == rows[id] && r.value.id == id
    {
      if id in rows {
        r := Some(rows[id]);
      } else {
        r := None;
      }
    }

    /** `delete`: removes the row and reports whether there was one. */
    method Delete(id: int) returns (success: bool)
      requires Valid()
      modifies this
      ensures Valid()
      ensures success <==> id in old(rows)
      ensures rows == old(rows) - {id}
    {
      success := id in rows;
      rows := rows - {id};
    }

    /**
     * `get_all`: every row exactly once. The repository's order is not part
     * of this model, so any order may come back.
     */
    method GetAll() returns (all: seq<KeySnippet>)
      requires Valid()
      ensures |all| == |rows|
      ensures forall i :: 0 <= i < |all| ==> all[i].id in rows && rows[all[i].id] == all[i]
      ensures forall k :: k in rows ==> exists i :: 0 <= i < |all| && all[i].id == k
      ensures forall i, j :: 0 <= i < j < |all| ==> all[i].id != all[j].id
    {
      all := [];
      var remaining := rows.Keys;
      while remaining != {}
        invariant remaining <= rows.Keys
        invariant |all| + |remaining| == |rows.Keys|
        invariant forall i :: 0 <= i < |all| ==>
          all[i].id in rows && all[i].id !in remaining && rows[all[i].id] == all[i]
        invariant forall k :: k in rows && k !in remaining ==> exists i :: 0 <= i < |all| && all[i].id == k
        invariant forall i, j :: 0 <= i < j < |all| ==> all[i].id != all[j].id
        decreases |remaining|
      {
        var k := Pick(remaining);
        assert rows[k].id == k;
        ghost var prev := all;
        all := all + [rows[k]];
        remaining := remaining - {k};
        assert all[|prev|].id == k;
        forall j | j in rows && j !in remaining
          ensures exists i :: 0 <= i < |all| && all[i].id == j
        {
          if j != k {
            var i :| 0 <= i < |prev| && prev[i].id == j;
            assert all[i].id == j;
          }
        }
      }
      assert |rows.Keys| == |rows|;
    }
  }

  /** Any element of a non-empty set. */
  method Pick(s: set<int>) returns (k: int)
    requires s != {}
    ensures k in s
  {
    NonEmptyHasElement(s);
    k :| k in s;
  }

  lemma NonEmptyHasElement(s: set<int>)
    requires s != {}
    ensures exists k :: k in s
  {
    if forall k :: k !in s {
      assert false;
    }
  }

  /** The four lists `delete_key_snippets` fills: deleted and protected (id, file) pairs, ids not found, ids that failed. */
  datatype DeletionReport = DeletionReport(
    deleted: seq<(int, string)>, protected: seq<(int, string)>,
    notFound: seq<int>, failed: seq<int>)

  /** One requested id: not found, protected and skipped, or deleted. */
  function DeleteStep(rows: map<int, KeySnippet>, report: DeletionReport, current: Option<int>, id: int)
    : (map<int, KeySnippet>, DeletionReport)
  {
    if id !in rows then (rows, report.(notFound := report.notFound + [id]))
    else if IsProtected(rows[id], current) then (rows, report.(protected := report.protected + [(id, rows[id].filepath)]))
    else (rows - {id}, report.(deleted := report.deleted + [(id, rows[id].filepath)]))
  }

  /** The table and the report after handling the requested ids from left to right. */
  function DeleteRun(rows: map<int, KeySnippet>, current: Option<int>, ids: seq<int>): (map<int, KeySnippet>, DeletionReport)
  {
    if ids == [] then (rows, DeletionReport([], [], [], []))
    else
      var prev := DeleteRun(rows, current, ids[..|ids| - 1]);
      DeleteStep(prev.0, prev.1, current, ids[|ids| - 1])
  }

  function Firsts(pairs: seq<(int, string)>): (ids: seq<int>)
    ensures |ids| == |pairs|
    ensures forall i :: 0 <= i < |pairs| ==> ids[i] == pairs[i].0
  {
    if pairs == [] then [] else Firsts(pairs[..|pairs| - 1]) + [pairs[|pairs| - 1].0]
  }

  /**
   * What the tool leaves in the table: a row survives exactly when it was not
   * requested or is protected, and surviving rows are unchanged. So only
   * requested rows can go, and a protected row never does.
   */
  lemma {:induction false} DeleteRunRows(rows: map<int, KeySnippet>, current: Option<int>, ids: seq<int>)
    ensures var after := DeleteRun(rows, current, ids).0;
      && (forall k :: k in after <==> k in rows && (k !in ids || IsProtected(rows[k], current)))
      && (forall k :: k in after ==> after[k] == rows[k])
  {
    if ids != [] {
      var init := ids[..|ids| - 1];
      DeleteRunRows(rows, current, init);
      var after := DeleteRun(rows, current, ids).0;
      forall k
        ensures k in after <==> k in rows && (k !in ids || IsProtected(rows[k], current))
      {
        assert k in ids <==> k in init || k == ids[|ids| - 1];
      }
    }
  }

  /**
   * Every requested id lands in exactly one list: as multisets, the four
   * lists together are the request. No deletion ever fails, because a row
   * that was just found is still there to delete.
   */
  lemma {:induction false} DeleteRunAccounting(rows: map<int, KeySnippet>, current: Option<int>, ids: seq<int>)
    ensures var report := DeleteRun(rows, current, ids).1;
      multiset(ids) == Reported(report)
    ensures DeleteRun(rows, current, ids).1.failed == []
  {
    if ids != [] {
      var init := ids[..|ids| - 1];
      var id := ids[|ids| - 1];
      assert ids == init + [id];
      DeleteRunAccounting(rows, current, init);
      var prev := DeleteRun(rows, current, init);
      var report := DeleteStep(prev.0, prev.1, current, id).1;
      assert DeleteRun(rows, current, ids).1 == report;
      StepReported(prev.0, prev.1, current, id);
    }
  }

  /** All ids a report mentions, as a multiset. */
  function Reported(report: DeletionReport): multiset<int>
  {
    multiset(Firsts(report.deleted)) + multiset(Firsts(report.protected))
      + multiset(report.notFound) + multiset(report.failed)
  }

  /** Each step reports its id exactly once and never as failed. */
  lemma StepReported(rows: map<int, KeySnippet>, report: DeletionReport, current: Option<int>, id: int)
    ensures Reported(DeleteStep(rows, report, current, id).1) == Reported(report) + multiset{id}
    ensures DeleteStep(rows, report, current, id).1.failed == report.failed
  {
    var next := DeleteStep(rows, report, current, id).1;
    if id !in rows {
      assert next == report.(notFound := report.notFound + [id]);
      assert multiset(next.notFound) == multiset(report.notFound) + multiset{id};
    } else if IsProtected(rows[id], current) {
      assert next == report.(protected := report.protected + [(id, rows[id].filepath)]);
      assert Firsts(next.protected) == Firsts(report.protected) + [id];
      assert multiset(Firsts(next.protected)) == multiset(Firsts(report.protected)) + multiset{id};
    } else {
      assert next == report.(deleted := report.deleted + [(id, rows[id].filepath)]);
      assert Firsts(next.deleted) == Firsts(report.deleted) + [id];
      assert multiset(Firsts(next.deleted)) == multiset(Firsts(report.deleted)) + multiset{id};
    }
  }

  /**
   * Each deleted pair names a row that was in the table, was not protected,
   * carried that file and is gone; no id is deleted twice.
   */
  lemma {:induction false} DeleteRunDeleted(rows: map<int, KeySnippet>, current: Option<int>, ids: seq<int>)
    ensures var (after, report) := DeleteRun(rows, current, ids);
      && (forall i :: 0 <= i < |report.deleted| ==>
            && report.deleted[i].0 in rows
            && !IsProtected(rows[report.deleted[i].0], current)
            && report.deleted[i].1 == rows[report.deleted[i].0].filepath
            && report.deleted[i].0 !in after)
      && (forall i, j :: 0 <= i < j < |report.deleted| ==> report.deleted[i].0 != report.deleted[j].0)
  {
    if ids != [] {
      var init := ids[..|ids| - 1];
      DeleteRunDeleted(rows, current, init);
      DeleteRunRows(rows, current, init);
    }
  }

  /**
   * Each protected pair names a row of the current request, with its file,
   * that is still in the table; each id reported not found is absent from it.
   */
  lemma {:induction false} DeleteRunSkipped(rows: map<int, KeySnippet>, current: Option<int>, ids: seq<int>)
    ensures var (after, report) := DeleteRun(rows, current, ids);
      && (forall i :: 0 <= i < |report.protected| ==>
            && report.protected[i].0 in rows
            && IsProtected(rows[report.protected[i].0], current)
            && report.protected[i].1 == rows[report.protected[i].0].filepath
            && report.protected[i].0 in after)
      && (forall i :: 0 <= i < |report.notFound| ==> report.notFound[i] !in after)
  {
    if ids != [] {
      var init := ids[..|ids| - 1];
      DeleteRunSkipped(rows, current, init);
      DeleteRunRows(rows, current, init);
    }
  }

  /** With no current input nothing is reported protected, and every requested row that exists is deleted. */
  lemma DeleteRunFailOpen(rows: map<int, KeySnippet>, ids: seq<int>)
    ensures var (after, report) := DeleteRun(rows, None, ids);
      && report.protected == []
      && (forall k :: k in after <==> k in rows && k !in ids)
  {
    DeleteRunRows(rows, None, ids);
    DeleteRunSkipped(rows, None, ids);
  }

  /** An empty request changes nothing and reports nothing. */
  lemma DeleteRunEmpty(rows: map<int, KeySnippet>, current: Option<int>)
    ensures DeleteRun(rows, current, []) == (rows, DeletionReport([], [], [], []))
  {
  }

  /**
   * `delete_key_snippets`: look up the current input once, then handle the
   * requested ids in order. The reply is always "Snippets deleted.".
   */
  method DeleteKeySnippets(repo: KeySnippetRepository, lookup: RecentLookup, snippetIds: seq<int>)
    returns (status: string, report: DeletionReport)
    requires repo.Valid()
    modifies repo
    ensures repo.Valid()
    ensures status == "Snippets deleted."
    ensures (repo.rows, report) == DeleteRun(old(repo.rows), CurrentHumanInputId(lookup), snippetIds)
  {
    ghost var rows0 := repo.rows;
    var current := None;
    if lookup.Returned? && |lookup.ids| > 0 {
      current := Some(lookup.ids[0]);
    }
    var deleted: seq<(int, string)> := [];
    var protected: seq<(int, string)> := [];
    var notFound: seq<int> := [];
    var failed: seq<int> := [];
    var i := 0;
    while i < |snippetIds|
      invariant 0 <= i <= |snippetIds|
      invariant repo.Valid()
      invariant (repo.rows, DeletionReport(deleted, protected, notFound, failed)) == DeleteRun(rows0, current, snippetIds[..i])
    {
      assert snippetIds[..i + 1][..i] == snippetIds[..i];
      var snippetId := snippetIds[i];
      var snippet := repo.Get(snippetId);
      if snippet.Some? {
        var filepath := snippet.value.filepath;
        if current.Some? && snippet.value.humanInputId == Some(current.value) {
          protected := protected + [(snippetId, filepath)];
        } else {
          var success := repo.Delete(snippetId);
          if success {
            deleted := deleted + [(snippetId, filepath)];
          } else {
            failed := failed + [snippetId];
          }
        }
      } else {
        notFound := notFound + [snippetId];
      }
      i := i + 1;
    }
    assert snippetIds[..i] == snippetIds;
    report := DeletionReport(deleted, protected, notFound, failed);
    status := "Snippets deleted.";
  }

  /** The snippets that may be collected, in the order given. */
  function Eligible(snippets: seq<KeySnippet>, current: Option<int>): seq<KeySnippet>
  {
    if snippets == [] then []
    else
      var last := snippets[|snippets| - 1];
      Eligible(snippets[..|snippets| - 1], current) + (if IsProtected(last, current) then [] else [last])
  }

  /** The snippets of the current request, in the order given. */
  function ProtectedOf(snippets: seq<KeySnippet>, current: Option<int>): seq<KeySnippet>
  {
    if snippets == [] then []
    else
      var last := snippets[|snippets| - 1];
      ProtectedOf(snippets[..|snippets| - 1], current) + (if IsProtected(last, current) then [last] else [])
  }

  /** Together the two parts are the input, as a multiset. */
  lemma {:induction false} PartitionCount(snippets: seq<KeySnippet>, current: Option<int>)
    ensures multiset(Eligible(snippets, current)) + multiset(ProtectedOf(snippets, current)) == multiset(snippets)
  {
    if snippets != [] {
      var init := snippets[..|snippets| - 1];
      PartitionCount(init, current);
      assert snippets == init + [snippets[|snippets| - 1]];
    }
  }

  /**
   * Each snippet is in the part its protection says, so the parts are
   * disjoint; with no current input every snippet is eligible.
   */
  lemma {:induction false} PartitionMembers(snippets: seq<KeySnippet>, current: Option<int>)
    ensures forall s :: s in Eligible(snippets, current) <==> s in snippets && !IsProtected(s, current)
    ensures forall s :: s in ProtectedOf(snippets, current) <==> s in snippets && IsProtected(s, current)
    ensures current == None ==> Eligible(snippets, current) == snippets
  {
    if snippets != [] {
      var init := snippets[..|snippets| - 1];
      PartitionMembers(init, current);
      assert snippets == init + [snippets[|snippets| - 1]];
    }
  }

  /** The partition loop of `run_key_snippets_gc_agent`. */
  method Partition(snippets: seq<KeySnippet>, current: Option<int>)
    returns (eligible: seq<KeySnippet>, protected: seq<KeySnippet>)
    ensures eligible == Eligible(snippets, current)
    ensures protected == ProtectedOf(snippets, current)
    ensures |eligible| + |protected| == |snippets|
    ensures forall s :: s in eligible <==> s in snippets && !IsProtected(s, current)
    ensures forall s :: s in protected <==> s in snippets && IsProtected(s, current)
  {
    eligible, protected := [], [];
    var i := 0;
    while i < |snippets|
      invariant 0 <= i <= |snippets|
      invariant eligible == Eligible(snippets[..i], current)
      invariant protected == ProtectedOf(snippets[..i], current)
    {
      assert snippets[..i + 1][..i] == snippets[..i];
      var snippet := snippets[i];
      if current.Some? && snippet.humanInputId == Some(current.value) {
        protected := protected + [snippet];
      } else {
        eligible := eligible + [snippet];
      }
      i := i + 1;
    }
    assert snippets[..i] == snippets;
    PartitionCount(snippets, current);
    PartitionMembers(snippets, current);
    assert |multiset(eligible) + multiset(protected)| == |multiset(snippets)|;
  }

  /** How Python renders an optional description inside an f-string. */
  function DescriptionText(description: Option<string>): string
  {
    match description
    case Some(text) => text
    case None => "None"
  }

  /** The header line of a snippet's entry in the prompt listing. */
  function EntryHeader(id: int): string
  {
    "Snippet #" + IntToString(id) + ":"
  }

  /** One snippet's entry in the prompt listing: its header, then its fields and its code. */
  function SnippetEntry(s: KeySnippet): string
  {
    EntryHeader(s.id) + EntryDetails(s)
  }

  function EntryDetails(s: KeySnippet): string
  {
    " filepath=" + s.filepath + ", line_number=" + IntToString(s.lineNumber)
      + ", description=" + DescriptionText(s.description) + "\n```python\n" + s.snippet + "\n```"
  }

  /** Every entry starts with the header naming its snippet's id. */
  lemma SnippetEntryHeader(s: KeySnippet)
    ensures |EntryHeader(s.id)| <= |SnippetEntry(s)|
    ensures SnippetEntry(s)[..|EntryHeader(s.id)|] == EntryHeader(s.id)
  {
  }

  /** Entry headers name their id: two entries with the same header are about the same id. */
  lemma EntryHeaderInjective(a: int, b: int)
    requires EntryHeader(a) == EntryHeader(b)
    ensures a == b
  {
    var p := "Snippet #";
    var ta, tb := IntToString(a), IntToString(b);
    assert EntryHeader(a)[|p|..|EntryHeader(a)| - 1] == ta;
    assert EntryHeader(b)[|p|..|EntryHeader(b)| - 1] == tb;
    if a >= 0 && b >= 0 {
      NatToStringInjective(a, b);
    } else if a < 0 && b < 0 {
      assert ta[1..] == tb[1..];
      NatToStringInjective(-a, -b);
    }
  }

  /** The prompt entries of the snippets, in their order. */
  function Entries(snippets: seq<KeySnippet>): seq<string>
  {
    seq(|snippets|, i requires 0 <= i < |snippets| => SnippetEntry(snippets[i]))
  }

  /**
   * The listing has one entry per snippet, in their order, each headed by
   * that snippet's id; so the ids a listing names are exactly its snippets' ids.
   */
  lemma EntriesNameIds(snippets: seq<KeySnippet>)
    ensures |Entries(snippets)| == |snippets|
    ensures forall i :: 0 <= i < |snippets| ==>
      && |EntryHeader(snippets[i].id)| <= |Entries(snippets)[i]|
      && Entries(snippets)[i][..|EntryHeader(snippets[i].id)|] == EntryHeader(snippets[i].id)
  {
    forall i | 0 <= i < |snippets|
      ensures |EntryHeader(snippets[i].id)| <= |Entries(snippets)[i]|
      ensures Entries(snippets)[i][..|EntryHeader(snippets[i].id)|] == EntryHeader(snippets[i].id)
    {
      SnippetEntryHeader(snippets[i]);
    }
  }

  /** The `formatted_snippets` listing put into the agent's prompt: one entry per snippet, joined by newlines. */
  function FormatSnippets(snippets: seq<KeySnippet>): string
  {
    Join(Entries(snippets), "\n")
  }

  /** What `run_key_snippets_gc_agent` ends with. */
  datatype GcOutcome =
    | NoSnippets
    | AllProtected(protectedCount: nat)
    | Cleaned(before: nat, after: nat, protectedCount: nat)

  /** One call the agent makes to the `delete_key_snippets` tool, with what that call's lookup of the current input sees. */
  datatype ToolCall = ToolCall(snippetIds: seq<int>, lookup: RecentLookup)

  /** Every tool call of the agent sees `current` as the current input. */
  predicate SeesCurrent(agent: seq<ToolCall>, current: Option<int>)
  {
    forall c :: c in agent ==> CurrentHumanInputId(c.lookup) == current
  }

  /** The table after the agent's tool calls, each handled as `delete_key_snippets` handles it. */
  function AfterAgent(rows: map<int, KeySnippet>, agent: seq<ToolCall>): map<int, KeySnippet>
  {
    if agent == [] then rows
    else
      var last := agent[|agent| - 1];
      DeleteRun(AfterAgent(rows, agent[..|agent| - 1]), CurrentHumanInputId(last.lookup), last.snippetIds).0
  }

  /**
   * The agent's tool calls, one after the other. Rows only ever disappear, a
   * row no call names survives, and while every call sees `current`, no row
   * protected under it disappears.
   */
  method RunAgent(repo: KeySnippetRepository, agent: seq<ToolCall>, ghost current: Option<int>)
    requires repo.Valid()
    modifies repo
    ensures repo.Valid()
    ensures repo.rows == AfterAgent(old(repo.rows), agent)
    ensures forall k :: k in repo.rows ==> k in old(repo.rows) && repo.rows[k] == old(repo.rows)[k]
    ensures forall k :: k in old(repo.rows) && (forall c :: c in agent ==> k !in c.snippetIds) ==> k in repo.rows
    ensures SeesCurrent(agent, current) ==>
      forall k :: k in old(repo.rows) && IsProtected(old(repo.rows)[k], current) ==> k in repo.rows
  {
    ghost var rows0 := repo.rows;
    var n := 0;
    while n < |agent|
      invariant 0 <= n <= |agent|
      invariant repo.Valid()
      invariant repo.rows == AfterAgent(rows0, agent[..n])
      invariant forall k :: k in repo.rows ==> k in rows0 && repo.rows[k] == rows0[k]
      invariant forall k :: k in rows0 && (forall c :: c in agent[..n] ==> k !in c.snippetIds) ==> k in repo.rows
      invariant SeesCurrent(agent, current) ==>
        forall k :: k in rows0 && IsProtected(rows0[k], current) ==> k in repo.rows
    {
      ghost var before := repo.rows;
      var _, _ := DeleteKeySnippets(repo, agent[n].lookup, agent[n].snippetIds);
      DeleteRunRows(before, CurrentHumanInputId(agent[n].lookup), agent[n].snippetIds);
      assert agent[n] in agent;
      assert agent[..n + 1] == agent[..n] + [agent[n]];
      assert agent[..n + 1][..n] == agent[..n];
      n := n + 1;
    }
    assert agent[..n] == agent;
  }

  /**
   * The eligible part of a full listing of the table is exactly the table's
   * unprotected rows; when it is empty, every row is protected.
   */
  lemma EligibleRows(rows: map<int, KeySnippet>, snippets: seq<KeySnippet>, current: Option<int>)
    requires forall i :: 0 <= i < |snippets| ==> snippets[i].id in rows && rows[snippets[i].id] == snippets[i]
    requires forall k :: k in rows ==> exists i :: 0 <= i < |snippets| && snippets[i].id == k
    ensures forall s :: s in Eligible(snippets, current) <==> s.id in rows && rows[s.id] == s && !IsProtected(s, current)
    ensures Eligible(snippets, current) == [] <==> forall k :: k in rows ==> IsProtected(rows[k], current)
  {
    PartitionMembers(snippets, current);
    var e := Eligible(snippets, current);
    if e != [] {
      assert e[0] in e;
      assert e[0].id in rows && !IsProtected(rows[e[0].id], current);
    }
    forall k | k in rows
      ensures rows[k] in snippets
    {
      var i :| 0 <= i < |snippets| && snippets[i].id == k;
      assert snippets[i] == rows[k];
    }
  }

  /**
   * `run_key_snippets_gc_agent`. The agent itself is not modelled: its work is
   * the given sequence of tool calls. It runs only when there are snippets
   * and at least one of them is eligible; its prompt lists exactly the
   * eligible snippets; and a snippet of the current request survives as long
   * as every tool call sees the same current input.
   */
  method RunKeySnippetsGcAgent(repo: KeySnippetRepository, lookup: RecentLookup, agent: seq<ToolCall>)
    returns (outcome: GcOutcome, listed: seq<KeySnippet>, prompt: Option<string>)
    requires repo.Valid()
    modifies repo
    ensures repo.Valid()
    ensures outcome.NoSnippets? <==> old(repo.rows) == map[]
    ensures outcome.AllProtected? <==>
      && old(repo.rows) != map[]
      && (forall k :: k in old(repo.rows) ==> IsProtected(old(repo.rows)[k], CurrentHumanInputId(lookup)))
    ensures outcome.AllProtected? ==> outcome.protectedCount == |old(repo.rows)|
    ensures prompt.Some? <==> outcome.Cleaned?
    ensures !outcome.Cleaned? ==> repo.rows == old(repo.rows) && listed == []
    ensures outcome.Cleaned? ==>
      && prompt == Some(FormatSnippets(listed))
      && outcome.before == |old(repo.rows)|
      && outcome.after == |repo.rows|
      && outcome.protectedCount + |listed| == outcome.before
    ensures forall s :: s in listed <==>
      s.id in old(repo.rows) && old(repo.rows)[s.id] == s && !IsProtected(s, CurrentHumanInputId(lookup))
    ensures forall i, j :: 0 <= i < j < |listed| ==> listed[i].id != listed[j].id
    ensures outcome.Cleaned? ==> repo.rows == AfterAgent(old(repo.rows), agent)
    ensures forall k :: k in repo.rows ==> k in old(repo.rows) && repo.rows[k] == old(repo.rows)[k]
    ensures forall k :: k in old(repo.rows) && (forall c :: c in agent ==> k !in c.snippetIds) ==> k in repo.rows
    ensures SeesCurrent(agent, CurrentHumanInputId(lookup)) ==>
      forall k :: k in old(repo.rows) && IsProtected(old(repo.rows)[k], CurrentHumanInputId(lookup)) ==> k in repo.rows
  {
    ghost var rows0 := repo.rows;
    var snippets := repo.GetAll();
    var snippetCount := |snippets|;
    var current := CurrentHumanInputId(lookup);
    EligibleRows(rows0, snippets, current);
    listed, prompt := [], None;
    if snippetCount > 0 {
      var eligible, protected := Partition(snippets, current);
      if eligible != [] {
        listed := eligible;
        EligibleDistinct(snippets, current);
        prompt := Some(FormatSnippets(eligible));
        RunAgent(repo, agent, current);
        var updated := repo.GetAll();
        outcome := Cleaned(snippetCount, |updated|, |protected|);
      } else {
        outcome := AllProtected(|protected|);
      }
    } else {
      outcome := NoSnippets;
    }
  }

  /** Filtering keeps the ids of a listing distinct. */
  lemma {:induction false} EligibleDistinct(snippets: seq<KeySnippet>, current: Option<int>)
    requires forall i, j :: 0 <= i < j < |snippets| ==> snippets[i].id != snippets[j].id
    ensures forall i, j :: 0 <= i < j < |Eligible(snippets, current)| ==>
      Eligible(snippets, current)[i].id != Eligible(snippets, current)[j].id
  {
    if snippets != [] {
      var init := snippets[..|snippets| - 1];
      var last := snippets[|snippets| - 1];
      EligibleDistinct(init, current);
      var prev := Eligible(init, current);
      if !IsProtected(last, current) {
        LastIdFresh(snippets);
        EligibleSubset(init, current);
        var e := prev + [last];
        assert Eligible(snippets, current) == e;
        forall i, j | 0 <= i < j < |e|
          ensures e[i].id != e[j].id
        {
          assert e[i] == prev[i];
          if j == |prev| {
            assert prev[i] in prev;
          } else {
            assert e[j] == prev[j];
          }
        }
      } else {
        assert Eligible(snippets, current) == prev;
      }
    }
  }

  /** In a listing with distinct ids, no earlier snippet shares the last one's id. */
  lemma LastIdFresh(snippets: seq<KeySnippet>)
    requires |snippets| > 0
    requires forall i, j :: 0 <= i < j < |snippets| ==> snippets[i].id != snippets[j].id
    ensures forall x :: x in snippets[..|snippets| - 1] ==> x.id != snippets[|snippets| - 1].id
  {
    var init := snippets[..|snippets| - 1];
    forall x | x in init
      ensures x.id != snippets[|snippets| - 1].id
    {
      var j :| 0 <= j < |init| && init[j] == x;
      assert snippets[j] == x;
    }
  }

  /** The eligible snippets come from the listing. */
  lemma EligibleSubset(snippets: seq<KeySnippet>, current: Option<int>)
    ensures forall x :: x in Eligible(snippets, current) ==> x in snippets
  {
    PartitionMembers(snippets, current);
  }
}
