/**
 * The comma-separated lists the type handlers keep in requirement headers:
 * the covering tests (`UACC-17 (NEW),SACC-18`), the implementing tasks with
 * and without a status (`TASK-10 (COMPLETED),TASK-12`), and the
 * referenced-by list of a PRD.
 */
module HandlerLists {

  import opened Wrappers
  import opened Text
  import opened Ordering

  /** `[v.strip() for v in s.split(',')] if s.strip() else []`. */
  function ListEntries(s: string): seq<string>
  {
    if Strip(s) != [] then StripAll(Split(s, ',')) else []
  }

  /** Entries that a join and a new split give back unchanged. */
  predicate ListClean(es: seq<string>)
  {
    forall i :: 0 <= i < |es| ==> Trimmed(es[i]) && ',' !in es[i]
  }

  /** Joining clean entries and reading the list again gives the entries back. */
  lemma ListReadsBack(es: seq<string>)
    requires ListClean(es) && es != [""]
    ensures ListEntries(Join(es, ',')) == es
  {
    if |es| == 1 {
      assert Join(es, ',') == es[0];
      OneReadsBack(es[0]);
      assert es == [es[0]];
    } else if |es| >= 2 {
      ManyReadBack(es);
    }
  }

  lemma OneReadsBack(e: string)
    requires Trimmed(e) && ',' !in e && e != []
    ensures ListEntries(e) == [e]
  {
    TrimmedStrip(e);
    SplitNoSeparator(e, ',');
    assert StripAll([e]) == [Strip(e)];
  }

  lemma ManyReadBack(es: seq<string>)
    requires ListClean(es) && |es| >= 2
    ensures ListEntries(Join(es, ',')) == es
  {
    JoinNotBlank(es);
    SplitStripClean(es);
  }

  lemma JoinNotBlank(es: seq<string>)
    requires |es| >= 2
    ensures Strip(Join(es, ',')) != []
  {
    var s := Join(es, ',');
    assert s == es[0] + [','] + Join(es[1..], ',');
    assert s[|es[0]|] == ',';
    assert !AllSpace(s) by {
      assert !IsSpace(s[|es[0]|]);
    }
    StripEmptyIff(s);
  }

  lemma SplitStripClean(es: seq<string>)
    requires ListClean(es) && |es| >= 1
    ensures StripAll(Split(Join(es, ','), ',')) == es
  {
    SplitJoin(es, ',');
    forall i | 0 <= i < |es| ensures Strip(es[i]) == es[i] {
      TrimmedStrip(es[i]);
    }
  }

  // ------------------------------------------------------------ covering tests

  /** Where the last `)` of `b` is, or -1 when there is none. */
  function LastClose(b: string): (r: int)
    ensures -1 <= r < |b| && (r >= 0 ==> b[r] == ')')
    ensures forall q :: r < q < |b| ==> b[q] != ')'
  {
    if b == [] then -1
    else if b[|b| - 1] == ')' then |b| - 1
    else LastClose(b[..|b| - 1])
  }

  /** Every `(` of `b` is closed by a later `)`: it stands before the last `)`. */
  predicate NoOpenParen(b: string)
  {
    forall w :: 0 <= w < |b| && b[w] == '(' ==> w < LastClose(b)
  }

  /**
   * The `\(` of `\s*\([^)]*\)$` can sit at `w`: a `(` followed by no `)`
   * up to the final character, which is `)`.
   */
  predicate OpensStatus(t: string, w: nat)
  {
    w + 1 < |t| && t[|t| - 1] == ')' && t[w] == '(' && forall q :: w < q < |t| - 1 ==> t[q] != ')'
  }

  /** The leftmost position, from `w` on, where the note can open. */
  function StatusParen(t: string, w: nat): (r: Option<nat>)
    ensures r.Some? ==> w <= r.value && OpensStatus(t, r.value)
    ensures r.Some? ==> forall v :: w <= v < r.value ==> !OpensStatus(t, v)
    ensures r.None? ==> forall v :: w <= v ==> !OpensStatus(t, v)
    decreases |t| - w
  {
    if w + 1 >= |t| then None
    else if OpensStatus(t, w) then Some(w)
    else StatusParen(t, w + 1)
  }

  /**
   * `re.sub(r'\s*\([^)]*\)$', '', t)`: a final parenthesised note and the
   * whitespace before it go; `$` also lets one final newline stand after it.
   */
  function WithoutStatus(t: string): string
  {
    var u := DropFinalNewline(t);
    match StatusParen(u, 0)
    case None => t
    case Some(p) => RStrip(u[..p]) + t[|u|..]
  }

  /** `f"{base} ({status})"` */
  function Noted(base: string, status: string): string
  {
    base + " (" + status + ")"
  }

  /** One entry of the covering-test list after the update. */
  function NoteTest(t: string, id: string, status: string): string
  {
    if StartsWith(t, id) then Noted(WithoutStatus(t), status) else t
  }

  function NotedTests(tests: seq<string>, id: string, status: string): (r: seq<string>)
    ensures |r| == |tests| && forall i :: 0 <= i < |tests| ==> r[i] == NoteTest(tests[i], id, status)
  {
    seq(|tests|, i requires 0 <= i < |tests| => NoteTest(tests[i], id, status))
  }

  /** `_update_test_status_in_list` */
  function TestStatusList(list: string, id: string, status: string): string
  {
    Join(NotedTests(StripAll(Split(list, ',')), id, status), ',')
  }

  /** `_update_test_status_in_list` */
  method UpdateTestStatusInList(list: string, id: string, status: string) returns (r: string)
    ensures r == TestStatusList(list, id, status)
  {
    var tests := StripAll(Split(list, ','));
    var updated := NoteEach(tests, id, status);
    r := Join(updated, ',');
  }

  /** The loop of `_update_test_status_in_list` that builds `updated_tests`. */
  method NoteEach(tests: seq<string>, id: string, status: string) returns (updated: seq<string>)
    ensures updated == NotedTests(tests, id, status)
  {
    updated := [];
    var i := 0;
    while i < |tests|
      invariant 0 <= i <= |tests|
      invariant |updated| == i && forall k :: 0 <= k < i ==> updated[k] == NoteTest(tests[k], id, status)
    {
      var test := tests[i];
      if StartsWith(test, id) {
        updated := updated + [Noted(WithoutStatus(test), status)];
      } else {
        updated := updated + [test];
      }
      i := i + 1;
    }
  }

  /** The note is recognised at the ` (` the update wrote. */
  lemma StatusParenOfNoted(b: string, n: string)
    requires NoOpenParen(b) && ')' !in n
    ensures StatusParen(Noted(b, n), 0) == Some(|b| + 1)
  {
    var t := Noted(b, n);
    assert t[|b| + 1] == '(' && t[|t| - 1] == ')';
    forall q | |b| + 1 < q < |t| - 1 ensures t[q] != ')' {
      assert t[q] == n[q - |b| - 2];
    }
    assert OpensStatus(t, |b| + 1);
    forall v | 0 <= v < |b| + 1 ensures !OpensStatus(t, v) {
      if v < |b| && b[v] == '(' {
        assert t[LastClose(b)] == ')';
      }
    }
  }

  /**
   * Removing a note the update wrote gives the base back, provided its
   * parentheses are closed and it does not end in whitespace.
   */
  lemma WithoutNote(b: string, n: string)
    requires NoOpenParen(b) && (b == [] || !IsSpace(b[|b| - 1])) && ')' !in n
    ensures WithoutStatus(Noted(b, n)) == b
  {
    var t := Noted(b, n);
    assert DropFinalNewline(t) == t;
    StatusParenOfNoted(b, n);
    assert t[..|b| + 1] == b + " ";
    RStripSkips(b, " ");
  }

  /** What is left of a stripped entry whose note was removed: closed, ends in no space, keeps the ID. */
  lemma WithoutStatusFacts(t: string, id: string)
    requires Trimmed(t) && StatusParen(t, 0).Some?
    requires StartsWith(t, id) && id != [] && '(' !in id && !IsSpace(id[|id| - 1])
    ensures NoOpenParen(WithoutStatus(t))
    ensures WithoutStatus(t) != [] && !IsSpace(WithoutStatus(t)[|WithoutStatus(t)| - 1])
    ensures StartsWith(WithoutStatus(t), id) && StartsWith(t, WithoutStatus(t))
  {
    assert DropFinalNewline(t) == t;
    var p := StatusParen(t, 0).value;
    var r := RStrip(t[..p]);
    assert WithoutStatus(t) == r;
    assert t[..p][|id| - 1] == id[|id| - 1];
    RStripKeepsNonSpace(t[..p], |id| - 1);
    assert r[..|id|] == t[..|id|];
    ClosedBeforeNote(t, p, r);
  }

  /** Before the leftmost place a note can open, every `(` is closed before the note. */
  lemma ClosedBeforeNote(t: string, p: nat, r: string)
    requires OpensStatus(t, p) && forall v :: 0 <= v < p ==> !OpensStatus(t, v)
    requires |r| <= p && r == t[..|r|] && AllSpace(t[|r|..p])
    ensures NoOpenParen(r)
  {
    forall w | 0 <= w < |r| && r[w] == '(' ensures w < LastClose(r) {
      assert t[w] == '(' && !OpensStatus(t, w);
      var q :| w < q < |t| - 1 && t[q] == ')';
      if q >= |r| {
        assert false;
      }
      assert r[q] == ')';
    }
  }

  /** Noting one entry twice with the same status is noting it once. */
  lemma NoteTestIdempotent(t: string, id: string, status: string)
    requires Trimmed(t) && NoOpenParen(t) && ',' !in t
    requires id != [] && '(' !in id && !IsSpace(id[|id| - 1])
    requires ')' !in status && ',' !in status
    ensures NoteTest(NoteTest(t, id, status), id, status) == NoteTest(t, id, status)
    ensures Trimmed(NoteTest(t, id, status)) && ',' !in NoteTest(t, id, status)
  {
    if StartsWith(t, id) {
      NoteOfNoted(t, id, status);
    }
  }

  /** An entry that starts with the ID is noted to an entry that starts with it too and has the same base. */
  lemma {:induction false} NoteOfNoted(t: string, id: string, status: string)
    requires Trimmed(t) && NoOpenParen(t) && ',' !in t && StartsWith(t, id)
    requires id != [] && '(' !in id && !IsSpace(id[|id| - 1])
    requires ')' !in status && ',' !in status
    ensures var n := Noted(WithoutStatus(t), status);
      WithoutStatus(n) == WithoutStatus(t) && StartsWith(n, id) && Trimmed(n) && ',' !in n
  {
    var b := WithoutStatus(t);
    BaseFacts(t, id);
    NotedFacts(b, id, status);
  }

  /** The base an entry keeps once its note is removed. */
  lemma BaseFacts(t: string, id: string)
    requires Trimmed(t) && NoOpenParen(t) && ',' !in t
    requires StartsWith(t, id) && id != [] && '(' !in id && !IsSpace(id[|id| - 1])
    ensures NoOpenParen(WithoutStatus(t)) && StartsWith(WithoutStatus(t), id) && ',' !in WithoutStatus(t)
    ensures WithoutStatus(t) != [] && !IsSpace(WithoutStatus(t)[|WithoutStatus(t)| - 1])
    ensures !IsSpace(WithoutStatus(t)[0])
  {
    assert DropFinalNewline(t) == t;
    if StatusParen(t, 0).Some? {
      WithoutStatusFacts(t, id);
    }
    WithoutStatusKeepsOut(t, ',');
  }

  /** A noted base keeps the ID in front, reads back as the base and is a clean entry. */
  lemma NotedFacts(b: string, id: string, status: string)
    requires NoOpenParen(b) && StartsWith(b, id) && ',' !in b && id != []
    requires b != [] && !IsSpace(b[|b| - 1]) && !IsSpace(b[0])
    requires ')' !in status && ',' !in status
    ensures WithoutStatus(Noted(b, status)) == b && StartsWith(Noted(b, status), id)
    ensures Trimmed(Noted(b, status)) && ',' !in Noted(b, status)
  {
    WithoutNote(b, status);
    var nt := Noted(b, status);
    assert nt[..|id|] == b[..|id|];
    assert nt[0] == b[0];
  }

  /**
   * The written list splits back into the noted entries: one per original
   * entry, in the original order, each the stripped original or its noted form.
   */
  lemma TestStatusListEntries(list: string, id: string, status: string)
    requires ',' !in status
    ensures Split(TestStatusList(list, id, status), ',') == NotedTests(StripAll(Split(list, ',')), id, status)
  {
    var parts := Split(list, ',');
    StripAllKeepsOut(parts, ',');
    var tests := StripAll(parts);
    NotedKeepsOut(tests, id, status);
    SplitJoin(NotedTests(tests, id, status), ',');
  }

  lemma StripAllKeepsOut(parts: seq<string>, c: char)
    requires forall k :: 0 <= k < |parts| ==> c !in parts[k]
    ensures forall k :: 0 <= k < |parts| ==> c !in StripAll(parts)[k]
  {
    forall k | 0 <= k < |parts| ensures c !in StripAll(parts)[k] {
      StripKeepsOut(parts[k], c);
    }
  }

  lemma NotedKeepsOut(tests: seq<string>, id: string, status: string)
    requires forall k :: 0 <= k < |tests| ==> ',' !in tests[k]
    requires ',' !in status
    ensures forall k :: 0 <= k < |tests| ==> ',' !in NotedTests(tests, id, status)[k]
  {
    forall k | 0 <= k < |tests| ensures ',' !in NotedTests(tests, id, status)[k] {
      WithoutStatusKeepsOut(tests[k], ',');
    }
  }

  /** Removing a note only removes characters. */
  lemma WithoutStatusKeepsOut(t: string, c: char)
    requires c !in t
    ensures c !in WithoutStatus(t)
  {
    var u := DropFinalNewline(t);
    SliceKeepsOut(t, 0, |u|, c);
    assert u == t[..|u|];
    match StatusParen(u, 0)
    case None =>
    case Some(p) =>
      SliceKeepsOut(u, 0, p, c);
      StripKeepsOut(u[..p], c);
      SliceKeepsOut(t, |u|, |t|, c);
  }

  /**
   * Updating a covering-test list twice with the same status gives the list of
   * the first update, when the ID is a non-blank token without `(` and the
   * entries close their parentheses.
   */
  lemma TestStatusListIdempotent(list: string, id: string, status: string)
    requires id != [] && '(' !in id && !IsSpace(id[|id| - 1])
    requires ')' !in status && ',' !in status
    requires forall e :: e in Split(list, ',') ==> NoOpenParen(Strip(e))
    ensures TestStatusList(TestStatusList(list, id, status), id, status) == TestStatusList(list, id, status)
  {
    var es := NotedTests(StripAll(Split(list, ',')), id, status);
    StableEntries(list, id, status, es);
    RewriteStable(es, id, status);
  }

  /** Every entry of an updated list is clean and left as it is by the same update. */
  lemma StableEntries(list: string, id: string, status: string, es: seq<string>)
    requires id != [] && '(' !in id && !IsSpace(id[|id| - 1])
    requires ')' !in status && ',' !in status
    requires forall e :: e in Split(list, ',') ==> NoOpenParen(Strip(e))
    requires es == NotedTests(StripAll(Split(list, ',')), id, status)
    ensures |es| >= 1
    ensures forall i :: 0 <= i < |es| ==> ',' !in es[i] && NoteTest(es[i], id, status) == es[i] && Strip(es[i]) == es[i]
  {
    forall i | 0 <= i < |es|
      ensures ',' !in es[i] && NoteTest(es[i], id, status) == es[i] && Strip(es[i]) == es[i]
    {
      assert Split(list, ',')[i] in Split(list, ',');
      EntryStable(Split(list, ','), i, id, status);
    }
  }

  /** A list whose entries the update leaves as they are is written back unchanged. */
  lemma RewriteStable(es: seq<string>, id: string, status: string)
    requires |es| >= 1
    requires forall i :: 0 <= i < |es| ==> ',' !in es[i] && NoteTest(es[i], id, status) == es[i] && Strip(es[i]) == es[i]
    ensures TestStatusList(Join(es, ','), id, status) == Join(es, ',')
  {
    SplitJoin(es, ',');
    assert StripAll(Split(Join(es, ','), ',')) == es;
    assert NotedTests(es, id, status) == es;
  }

  /** One entry of an updated list: clean, and left as it is by the same update. */
  lemma EntryStable(parts: seq<string>, i: nat, id: string, status: string)
    requires i < |parts| && NoOpenParen(Strip(parts[i])) && ',' !in parts[i]
    requires id != [] && '(' !in id && !IsSpace(id[|id| - 1])
    requires ')' !in status && ',' !in status
    ensures var e := NoteTest(Strip(parts[i]), id, status);
      Trimmed(e) && ',' !in e && NoteTest(e, id, status) == e && Strip(e) == e
  {
    StripIsTrimmed(parts[i]);
    StripKeepsOut(parts[i], ',');
    NoteTestIdempotent(Strip(parts[i]), id, status);
    TrimmedStrip(NoteTest(Strip(parts[i]), id, status));
  }

  // ------------------------------------------------------------ implementing tasks

  /** `t.split(' (')[0]`: the entry up to its first ` (`. */
  function BareId(t: string): (r: string)
    ensures StartsWith(t, r)
    decreases |t|
  {
    if |t| < 2 then t
    else if t[0] == ' ' && t[1] == '(' then ""
    else [t[0]] + BareId(t[1..])
  }

  /** `t.split(' (')[0].strip()`: the task an entry names. */
  function EntryTask(t: string): string
  {
    Strip(BareId(t))
  }

  /** A task ID as the lists hold it: stripped, non-empty, without ` (` or a comma. */
  predicate TaskToken(task: string)
  {
    task != [] && Trimmed(task) && !Contains(task, " (") && ',' !in task
  }

  /** The bare ID of `task (status)` is the task. */
  lemma {:induction false} BareIdOfNoted(task: string, status: string)
    requires !Contains(task, " (")
    ensures BareId(Noted(task, status)) == task
    decreases |task|
  {
    var t := Noted(task, status);
    if task != [] {
      if |task| >= 2 {
        assert task[..2] == t[..2];
        assert !StartsWith(task, " (");
      }
      assert t[1..] == Noted(task[1..], status);
      BareIdOfNoted(task[1..], status);
      assert task == [task[0]] + task[1..];
    }
  }

  lemma EntryTaskOfNoted(task: string, status: string)
    requires TaskToken(task)
    ensures EntryTask(Noted(task, status)) == task && EntryTask(task) == task
  {
    BareIdOfNoted(task, status);
    TrimmedStrip(task);
    if |task| >= 2 {
      assert !StartsWith(task, " (");
    }
    BareIdWithoutSeparator(task);
  }

  /** An entry without ` (` is its own bare ID. */
  lemma {:induction false} BareIdWithoutSeparator(t: string)
    requires !Contains(t, " (")
    ensures BareId(t) == t
    decreases |t|
  {
    if |t| >= 2 {
      assert !StartsWith(t, " (");
      assert t[..2] == [t[0], t[1]];
      BareIdWithoutSeparator(t[1..]);
      assert t == [t[0]] + t[1..];
    }
  }

  /** Some entry names the task. */
  predicate NamesTask(tasks: seq<string>, task: string)
  {
    exists i :: 0 <= i < |tasks| && EntryTask(tasks[i]) == task
  }

  /** An entry naming the task becomes `task (status)`; any other stays. */
  function Restate(t: string, task: string, status: string): string
  {
    if EntryTask(t) == task then Noted(task, status) else t
  }

  function Restated(tasks: seq<string>, task: string, status: string): (r: seq<string>)
    ensures |r| == |tasks| && forall i :: 0 <= i < |tasks| ==> r[i] == Restate(tasks[i], task, status)
  {
    seq(|tasks|, i requires 0 <= i < |tasks| => Restate(tasks[i], task, status))
  }

  /** The list `_update_req_implementing_task_status` writes back. */
  function TaskStatusList(tasks: seq<string>, task: string, status: string): seq<string>
  {
    var marked := Restated(tasks, task, status);
    if NamesTask(tasks, task) then marked else marked + [Noted(task, status)]
  }

  /** `_update_req_implementing_task_status`: the loop that fills `updated_tasks` and sets `task_found`, then the append. */
  method UpdateImplementingTaskStatus(tasks: seq<string>, task: string, status: string) returns (updated: seq<string>)
    ensures updated == TaskStatusList(tasks, task, status)
  {
    var found;
    updated, found := RestateEach(tasks, task, status, EntryTask);
    assert updated == Restated(tasks, task, status);
    assert found == NamesTask(tasks, task);
    if !found {
      updated := updated + [Noted(task, status)];
    }
  }

  /**
   * The loop over the entries, with the task an entry names computed by
   * `name` (`t.split(' (')[0].strip()` in the handler).
   */
  method RestateEach(tasks: seq<string>, task: string, status: string, name: string -> string)
    returns (updated: seq<string>, found: bool)
    ensures |updated| == |tasks|
    ensures forall k :: 0 <= k < |tasks| ==> updated[k] == (if name(tasks[k]) == task then Noted(task, status) else tasks[k])
    ensures found <==> exists k :: 0 <= k < |tasks| && name(tasks[k]) == task
  {
    updated := [];
    found := false;
    ghost var at := -1;
    var i := 0;
    while i < |tasks|
      invariant 0 <= i <= |tasks| && |updated| == i
      invariant forall k :: 0 <= k < i ==> updated[k] == (if name(tasks[k]) == task then Noted(task, status) else tasks[k])
      invariant found <==> at >= 0
      invariant found ==> at < i && name(tasks[at]) == task
      invariant !found ==> forall k :: 0 <= k < i ==> name(tasks[k]) != task
    {
      if name(tasks[i]) == task {
        updated := updated + [Noted(task, status)];
        found := true;
        at := i;
      } else {
        updated := updated + [tasks[i]];
      }
      i := i + 1;
    }
  }

  /**
   * After the update every entry naming the task carries the new status, the
   * task is named, and every other entry was already in the list.
   */
  lemma TaskStatusListNames(tasks: seq<string>, task: string, status: string)
    requires TaskToken(task)
    ensures NamesTask(TaskStatusList(tasks, task, status), task)
    ensures forall e :: e in TaskStatusList(tasks, task, status) && EntryTask(e) == task ==> e == Noted(task, status)
    ensures forall e :: e in TaskStatusList(tasks, task, status) && EntryTask(e) != task ==> e in tasks
  {
    var r := TaskStatusList(tasks, task, status);
    EntryTaskOfNoted(task, status);
    RestateFacts(tasks, task, status, EntryTask, r);
  }

  /** `TaskStatusListNames` for any way `name` of reading the task off an entry that reads it off `task (status)`. */
  lemma RestateFacts(tasks: seq<string>, task: string, status: string, name: string -> string, r: seq<string>)
    requires name(Noted(task, status)) == task
    requires |tasks| <= |r| && forall k :: 0 <= k < |tasks| ==> r[k] == (if name(tasks[k]) == task then Noted(task, status) else tasks[k])
    requires forall k :: |tasks| <= k < |r| ==> r[k] == Noted(task, status)
    requires |tasks| < |r| || exists k :: 0 <= k < |tasks| && name(tasks[k]) == task
    ensures exists k :: 0 <= k < |r| && name(r[k]) == task
    ensures forall e :: e in r && name(e) == task ==> e == Noted(task, status)
    ensures forall e :: e in r && name(e) != task ==> e in tasks
  {
    if |tasks| < |r| {
      assert name(r[|tasks|]) == task;
    } else {
      var i :| 0 <= i < |tasks| && name(tasks[i]) == task;
      assert name(r[i]) == task;
    }
  }

  /** The header value the status update writes: the joined list. */
  function TaskStatusValue(cur: string, task: string, status: string): string
  {
    Join(TaskStatusList(ListEntries(cur), task, status), ',')
  }

  /** Reading the written value gives the updated list. */
  lemma TaskStatusValueReadsBack(cur: string, task: string, status: string)
    requires TaskToken(task) && ',' !in status
    ensures ListEntries(TaskStatusValue(cur, task, status)) == TaskStatusList(ListEntries(cur), task, status)
  {
    var es := ListEntries(cur);
    var r := TaskStatusList(es, task, status);
    ListEntriesClean(cur);
    NotedClean(task, status);
    TaskStatusListFrom(es, task, status);
    assert ListClean(r) by {
      forall i | 0 <= i < |r| ensures Trimmed(r[i]) && ',' !in r[i] {
        assert r[i] in r;
        if r[i] != Noted(task, status) {
          var k :| 0 <= k < |es| && es[k] == r[i];
        }
      }
    }
    TaskStatusListNamed(es, task, status);
    ListReadsBack(r);
  }

  /** The entries read from a header value are clean. */
  lemma ListEntriesClean(cur: string)
    ensures ListClean(ListEntries(cur))
  {
    if Strip(cur) != [] {
      var parts := Split(cur, ',');
      StripAllKeepsOut(parts, ',');
      forall i | 0 <= i < |parts| ensures Trimmed(StripAll(parts)[i]) {
        StripIsTrimmed(parts[i]);
      }
    }
  }

  /** Every entry after the update is an entry from before or `task (status)`. */
  lemma TaskStatusListFrom(tasks: seq<string>, task: string, status: string)
    ensures forall e :: e in TaskStatusList(tasks, task, status) ==> e in tasks || e == Noted(task, status)
  {
    var r := TaskStatusList(tasks, task, status);
    forall e | e in r ensures e in tasks || e == Noted(task, status) {
      var k :| 0 <= k < |r| && r[k] == e;
      if k < |tasks| && r[k] != Noted(task, status) {
        assert r[k] == Restate(tasks[k], task, status);
      }
    }
  }

  /** The updated list is never the single blank entry, so it survives the write. */
  lemma TaskStatusListNamed(tasks: seq<string>, task: string, status: string)
    requires TaskToken(task)
    ensures TaskStatusList(tasks, task, status) != [""]
  {
    TaskStatusListNames(tasks, task, status);
  }

  lemma NotedClean(task: string, status: string)
    requires TaskToken(task) && ',' !in status
    ensures Trimmed(Noted(task, status)) && ',' !in Noted(task, status)
  {
    assert Noted(task, status)[0] == task[0];
  }

  /** Writing the same task status twice writes the value of the first update. */
  lemma TaskStatusValueIdempotent(cur: string, task: string, status: string)
    requires TaskToken(task) && ',' !in status
    ensures TaskStatusValue(TaskStatusValue(cur, task, status), task, status) == TaskStatusValue(cur, task, status)
  {
    TaskStatusValueReadsBack(cur, task, status);
    TaskStatusListNames(ListEntries(cur), task, status);
    TaskStatusListFixed(TaskStatusList(ListEntries(cur), task, status), task, status);
  }

  /** A list that names the task, each time as `task (status)`, is left as it is. */
  lemma TaskStatusListFixed(r: seq<string>, task: string, status: string)
    requires NamesTask(r, task)
    requires forall e :: e in r && EntryTask(e) == task ==> e == Noted(task, status)
    ensures TaskStatusList(r, task, status) == r
  {
    RestateFixed(r, task, status, EntryTask, Restated(r, task, status));
  }

  lemma RestateFixed(r: seq<string>, task: string, status: string, name: string -> string, m: seq<string>)
    requires |m| == |r| && forall k :: 0 <= k < |r| ==> m[k] == (if name(r[k]) == task then Noted(task, status) else r[k])
    requires forall e :: e in r && name(e) == task ==> e == Noted(task, status)
    ensures m == r
  {
    forall k | 0 <= k < |r| ensures m[k] == r[k] {
      assert r[k] in r;
    }
  }

  // ------------------------------------------------------------ sorting by a key

  /** `s` is in ascending order of `key`, as `list.sort(key=...)` leaves it. */
  predicate SortedBy(s: seq<string>, key: string -> string)
  {
    forall i, j :: 0 <= i < j < |s| ==> !Below(key(s[j]), key(s[i]))
  }

  /** Insert `x` after every entry whose key is not above its own: a stable insertion step. */
  function InsertByKey(s: seq<string>, x: string, key: string -> string): (r: seq<string>)
    ensures multiset(r) == multiset(s) + multiset{x}
    decreases |s|
  {
    if s == [] then [x]
    else if Below(key(x), key(s[0])) then [x] + s
    else
      assert s == [s[0]] + s[1..];
      [s[0]] + InsertByKey(s[1..], x, key)
  }

  /** `sorted(xs, key=key)`: stable insertion of each entry in turn. */
  function SortByKey(xs: seq<string>, key: string -> string): (r: seq<string>)
    ensures multiset(r) == multiset(xs)
    decreases |xs|
  {
    if xs == [] then []
    else
      assert xs == xs[..|xs| - 1] + [xs[|xs| - 1]];
      InsertByKey(SortByKey(xs[..|xs| - 1], key), xs[|xs| - 1], key)
  }

  lemma {:induction false} InsertSorted(s: seq<string>, x: string, key: string -> string)
    requires SortedBy(s, key)
    ensures SortedBy(InsertByKey(s, x, key), key)
    decreases |s|
  {
    if s == [] {
    } else if Below(key(x), key(s[0])) {
      forall e | e in s ensures !Below(key(e), key(x)) {
        var j :| 0 <= j < |s| && s[j] == e;
        if Below(key(e), key(x)) {
          BelowTransitive(key(e), key(x), key(s[0]));
          if j == 0 {
            BelowIrreflexive(key(e));
          }
        }
      }
      ConsSorted(x, s, key);
    } else {
      var tail := InsertByKey(s[1..], x, key);
      TailSorted(s, key);
      InsertSorted(s[1..], x, key);
      forall e | e in tail ensures !Below(key(e), key(s[0])) {
        assert e in multiset(s[1..]) + multiset{x} by {
          assert e in multiset(tail);
        }
        if e != x {
          var k :| 0 <= k < |s[1..]| && s[1..][k] == e;
          assert s[k + 1] == e;
        }
      }
      ConsSorted(s[0], tail, key);
    }
  }

  lemma TailSorted(s: seq<string>, key: string -> string)
    requires SortedBy(s, key) && s != []
    ensures SortedBy(s[1..], key)
  {
    forall i, j | 0 <= i < j < |s[1..]| ensures !Below(key(s[1..][j]), key(s[1..][i])) {
      assert s[1..][i] == s[i + 1] && s[1..][j] == s[j + 1];
    }
  }

  /** An entry whose key is not above any key of a sorted list can go in front of it. */
  lemma ConsSorted(h: string, s: seq<string>, key: string -> string)
    requires SortedBy(s, key)
    requires forall e :: e in s ==> !Below(key(e), key(h))
    ensures SortedBy([h] + s, key)
  {
    var r := [h] + s;
    forall i, j | 0 <= i < j < |r| ensures !Below(key(r[j]), key(r[i])) {
      assert r[j] == s[j - 1];
      if i == 0 {
        assert s[j - 1] in s;
      } else {
        assert r[i] == s[i - 1];
      }
    }
  }

  /** The sort orders the entries by key and is a permutation of them. */
  lemma {:induction false} SortByKeySorted(xs: seq<string>, key: string -> string)
    ensures SortedBy(SortByKey(xs, key), key)
    ensures multiset(SortByKey(xs, key)) == multiset(xs)
    decreases |xs|
  {
    if xs != [] {
      SortByKeySorted(xs[..|xs| - 1], key);
      InsertSorted(SortByKey(xs[..|xs| - 1], key), xs[|xs| - 1], key);
    }
  }

  /** The entries whose key is `k`, in their order. */
  function WithKey(s: seq<string>, key: string -> string, k: string): seq<string>
    decreases |s|
  {
    if s == [] then [] else (if key(s[0]) == k then [s[0]] else []) + WithKey(s[1..], key, k)
  }

  lemma {:induction false} WithKeyConcat(a: seq<string>, b: seq<string>, key: string -> string, k: string)
    ensures WithKey(a + b, key, k) == WithKey(a, key, k) + WithKey(b, key, k)
    decreases |a|
  {
    if a == [] {
      assert a + b == b;
    } else {
      assert (a + b)[0] == a[0] && (a + b)[1..] == a[1..] + b;
      WithKeyConcat(a[1..], b, key, k);
    }
  }

  lemma WithKeyOne(x: string, key: string -> string, k: string)
    ensures WithKey([x], key, k) == if key(x) == k then [x] else []
  {
    assert [x][1..] == [];
  }

  lemma {:induction false} WithKeyNone(s: seq<string>, key: string -> string, k: string)
    requires forall e :: e in s ==> key(e) != k
    ensures WithKey(s, key, k) == []
    decreases |s|
  {
    if s != [] {
      assert s[0] in s;
      assert forall e :: e in s[1..] ==> e in s;
      WithKeyNone(s[1..], key, k);
    }
  }

  /** No entry of a sorted list has the key of an entry that sorts before its head. */
  lemma KeyAboveHead(s: seq<string>, x: string, key: string -> string)
    requires SortedBy(s, key) && s != [] && Below(key(x), key(s[0]))
    ensures forall e :: e in s ==> key(e) != key(x)
  {
    forall e | e in s ensures key(e) != key(x) {
      var j :| 0 <= j < |s| && s[j] == e;
      if key(e) == key(x) && j == 0 {
        BelowIrreflexive(key(e));
      }
    }
  }

  /** Putting an entry back at the head puts it back at the head of its key's entries. */
  lemma PassHeadStable(s: seq<string>, tail: seq<string>, extra: seq<string>, key: string -> string, k: string)
    requires s != []
    requires WithKey(tail, key, k) == WithKey(s[1..], key, k) + extra
    ensures WithKey([s[0]] + tail, key, k) == WithKey(s, key, k) + extra
  {
    var head := [s[0]];
    WithKeyConcat(head, tail, key, k);
    assert s == head + s[1..];
    WithKeyConcat(head, s[1..], key, k);
    var h, r := WithKey(head, key, k), WithKey(s[1..], key, k);
    assert h + (r + extra) == (h + r) + extra;
  }

  /**
   * The insertion keeps the entries of each key in their order, the new
   * entry last among those of its key.
   */
  lemma {:induction false} InsertStable(s: seq<string>, x: string, key: string -> string, k: string)
    requires SortedBy(s, key)
    ensures WithKey(InsertByKey(s, x, key), key, k) == WithKey(s, key, k) + (if key(x) == k then [x] else [])
    decreases |s|
  {
    WithKeyOne(x, key, k);
    if s == [] {
    } else if Below(key(x), key(s[0])) {
      WithKeyConcat([x], s, key, k);
      if key(x) == k {
        KeyAboveHead(s, x, key);
        WithKeyNone(s, key, k);
      }
    } else {
      TailSorted(s, key);
      InsertStable(s[1..], x, key, k);
      PassHeadStable(s, InsertByKey(s[1..], x, key), if key(x) == k then [x] else [], key, k);
    }
  }

  /** The sort is stable: the entries of each key keep their input order. */
  lemma {:induction false} SortByKeyStable(xs: seq<string>, key: string -> string, k: string)
    ensures WithKey(SortByKey(xs, key), key, k) == WithKey(xs, key, k)
    decreases |xs|
  {
    if xs != [] {
      var init, last := xs[..|xs| - 1], xs[|xs| - 1];
      SortByKeySorted(init, key);
      SortByKeyStable(init, key, k);
      InsertStable(SortByKey(init, key), last, key, k);
      WithKeyOne(last, key, k);
      assert init + [last] == xs;
      WithKeyConcat(init, [last], key, k);
    }
  }

  /** How many entries name the task, reading the task off each entry with `name`. */
  function Count(s: seq<string>, task: string, name: string -> string): nat
    decreases |s|
  {
    if s == [] then 0 else (if name(s[0]) == task then 1 else 0) + Count(s[1..], task, name)
  }

  lemma {:induction false} CountConcat(a: seq<string>, b: seq<string>, task: string, name: string -> string)
    ensures Count(a + b, task, name) == Count(a, task, name) + Count(b, task, name)
    decreases |a|
  {
    if a == [] {
      assert a + b == b;
    } else {
      assert (a + b)[0] == a[0] && (a + b)[1..] == a[1..] + b;
      CountConcat(a[1..], b, task, name);
    }
  }

  /** Taking out the entry at `k` takes out its share of the count. */
  lemma CountRemove(b: seq<string>, k: nat, task: string, name: string -> string)
    requires k < |b|
    ensures Count(b, task, name) == (if name(b[k]) == task then 1 else 0) + Count(b[..k] + b[k + 1..], task, name)
  {
    assert b == b[..k] + ([b[k]] + b[k + 1..]);
    CountConcat(b[..k], [b[k]] + b[k + 1..], task, name);
    CountConcat(b[..k], b[k + 1..], task, name);
    assert ([b[k]] + b[k + 1..])[0] == b[k] && ([b[k]] + b[k + 1..])[1..] == b[k + 1..];
  }

  /** Entries that are permutations of each other name the task equally often. */
  lemma {:induction false} CountPermutation(a: seq<string>, b: seq<string>, task: string, name: string -> string)
    requires multiset(a) == multiset(b)
    ensures Count(a, task, name) == Count(b, task, name)
    decreases |a|
  {
    if a == [] {
      assert |b| == |multiset(b)| == 0;
    } else {
      var k := PermutedFront(a, b);
      var rest := b[..k] + b[k + 1..];
      CountPermutation(a[1..], rest, task, name);
      CountRemove(b, k, task, name);
    }
  }

  /** Where the first element of `a` sits in a permutation `b`, and what is left of both without it. */
  lemma PermutedFront<T>(a: seq<T>, b: seq<T>) returns (k: nat)
    requires multiset(a) == multiset(b) && a != []
    ensures k < |b| && b[k] == a[0] && multiset(a[1..]) == multiset(b[..k] + b[k + 1..])
  {
    assert a[0] in multiset(b);
    k :| 0 <= k < |b| && b[k] == a[0];
    assert b == b[..k] + [b[k]] + b[k + 1..];
    assert multiset(b) == multiset(b[..k]) + multiset{b[k]} + multiset(b[k + 1..]);
    assert multiset(b[..k] + b[k + 1..]) == multiset(b[..k]) + multiset(b[k + 1..]);
    assert a == [a[0]] + a[1..];
    assert multiset(a) == multiset{a[0]} + multiset(a[1..]);
    assert multiset(a[1..]) == multiset(a) - multiset{a[0]};
    assert multiset(b[..k] + b[k + 1..]) == multiset(b) - multiset{b[k]};
  }

  lemma {:induction false} CountNames(s: seq<string>, task: string, name: string -> string)
    ensures Count(s, task, name) > 0 <==> exists i :: 0 <= i < |s| && name(s[i]) == task
    decreases |s|
  {
    if s != [] {
      CountNames(s[1..], task, name);
      if exists i :: 0 <= i < |s| && name(s[i]) == task {
        var i :| 0 <= i < |s| && name(s[i]) == task;
        if i > 0 {
          assert name(s[1..][i - 1]) == task;
        }
      }
      if exists i :: 0 <= i < |s[1..]| && name(s[1..][i]) == task {
        var i :| 0 <= i < |s[1..]| && name(s[1..][i]) == task;
        assert s[i + 1] == s[1..][i];
      }
    }
  }

  /** The list `_add_or_update_implementing_task_line` writes: the task added when no entry names it, sorted by bare ID. */
  function ImplementingTasks(tasks: seq<string>, task: string): seq<string>
  {
    SortByKey(if NamesTask(tasks, task) then tasks else tasks + [task], BareId)
  }

  /** `_add_or_update_implementing_task_line`: the search loop, then the sort. */
  method AddImplementingTask(tasks: seq<string>, task: string) returns (r: seq<string>)
    ensures r == ImplementingTasks(tasks, task)
  {
    var found := FindTask(tasks, task);
    var current := if found then tasks else tasks + [task];
    r := SortByKey(current, BareId);
  }

  /** The search loop of `_add_or_update_implementing_task_line`, which stops at the first entry naming the task. */
  method FindTask(tasks: seq<string>, task: string) returns (found: bool)
    ensures found <==> NamesTask(tasks, task)
  {
    found := false;
    var i := 0;
    while i < |tasks|
      invariant 0 <= i <= |tasks|
      invariant forall k :: 0 <= k < i ==> EntryTask(tasks[k]) != task
    {
      if EntryTask(tasks[i]) == task {
        found := true;
        break;
      }
      i := i + 1;
    }
  }

  /**
   * The result is sorted by bare ID and is a permutation of the entries plus
   * the task when it was missing, so every existing entry keeps its status
   * note; the task is named exactly once when it was not named before, and as
   * often as before otherwise. The sort is stable: entries with the same bare
   * ID keep their order, the added task after them.
   */
  lemma ImplementingTasksCorrect(tasks: seq<string>, task: string)
    requires TaskToken(task)
    ensures SortedBy(ImplementingTasks(tasks, task), BareId)
    ensures NamesTask(tasks, task) ==> multiset(ImplementingTasks(tasks, task)) == multiset(tasks)
    ensures !NamesTask(tasks, task) ==> multiset(ImplementingTasks(tasks, task)) == multiset(tasks) + multiset{task}
    ensures NamesTask(tasks, task) ==> Count(ImplementingTasks(tasks, task), task, EntryTask) == Count(tasks, task, EntryTask)
    ensures !NamesTask(tasks, task) ==> Count(ImplementingTasks(tasks, task), task, EntryTask) == 1
    ensures forall k :: WithKey(ImplementingTasks(tasks, task), BareId, k)
                        == WithKey(if NamesTask(tasks, task) then tasks else tasks + [task], BareId, k)
  {
    var current := if NamesTask(tasks, task) then tasks else tasks + [task];
    SortByKeySorted(current, BareId);
    forall k {
      SortByKeyStable(current, BareId, k);
    }
    CountPermutation(ImplementingTasks(tasks, task), current, task, EntryTask);
    if !NamesTask(tasks, task) {
      CountNames(tasks, task, EntryTask);
      CountConcat(tasks, [task], task, EntryTask);
      EntryTaskOfNoted(task, "");
      assert Count([task], task, EntryTask) == 1 by {
        assert [task][1..] == [];
      }
    }
  }

  // ------------------------------------------------------------ referenced-by

  function Same(s: string): string
  {
    s
  }

  /**
   * The referenced-by list of the parent PRD once the TASKPRD is recorded:
   * None when it is already listed, otherwise the list with it added, sorted.
   */
  function WithReference(cur: string, id: string): Option<seq<string>>
  {
    var refs := ListEntries(cur);
    if id in refs then None else Some(SortByKey(refs + [id], Same))
  }

  /** A new reference is added exactly once, in order, among the previous ones. */
  lemma WithReferenceCorrect(cur: string, id: string)
    ensures WithReference(cur, id).None? <==> id in ListEntries(cur)
    ensures WithReference(cur, id).Some? ==>
      (SortedBy(WithReference(cur, id).value, Same)
       && multiset(WithReference(cur, id).value) == multiset(ListEntries(cur)) + multiset{id})
    ensures WithReference(cur, id).Some? ==> multiset(WithReference(cur, id).value)[id] == 1
  {
    var refs := ListEntries(cur);
    if id !in refs {
      SortByKeySorted(refs + [id], Same);
      assert multiset(refs)[id] == 0;
    }
  }
}
