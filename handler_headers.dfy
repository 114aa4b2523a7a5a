/**
 * The header rewrites the type handlers perform on artifact content: the
 * key translation and update of `_manage_header_metadata_lines`, its legacy
 * fallback over plain `Status:` / `Referenced by:` lines, and the status
 * updates of PRD and TASKPRD documents. The header blocks the handlers
 * rebuild by hand to record implementing tasks and covering tests are not
 * part of this module: only the list values they write are modelled, in
 * HandlerLists.
 */
module HandlerHeaders {

  import opened Wrappers
  import opened Text
  import opened TypeRegistry
  import opened HeaderCodec
  import opened HandlerLists
  import opened Sections

  const StatusKey := "STATUS"
  const ReferencedByKey := "REFERENCED_BY"
  const ImplementingTasksKey := "IMPLEMENTING_TASKS"
  const CoveringTestsKey := "COVERING_TESTS"
  const ParentKey := "PARENT"

  // ------------------------------------------------------------ update keys

  /** `s.replace(' ', '_')` */
  function Underscored(s: string): (r: string)
    ensures |r| == |s| && forall i :: 0 <= i < |s| ==> r[i] == (if s[i] == ' ' then '_' else s[i])
  {
    seq(|s|, i requires 0 <= i < |s| => if s[i] == ' ' then '_' else s[i])
  }

  /** The header item key an old-style update key is translated to. */
  function HeaderKey(key: string): string
  {
    if key == "Status" then StatusKey
    else if key == "Referenced by" then ReferencedByKey
    else if key == "Implementing Tasks" then ImplementingTasksKey
    else if key == "Covering Tests" then CoveringTestsKey
    else if key == "Parent" then ParentKey
    else Underscored(Upper(key))
  }

  /** The five named keys agree with the rule used for every other key. */
  lemma HeaderKeyUniform(key: string)
    ensures HeaderKey(key) == Underscored(Upper(key))
  {
    if key == "Status" {
      SpelledStatus();
    } else if key == "Referenced by" {
      SpelledReferencedBy();
    } else if key == "Implementing Tasks" {
      SpelledImplementingTasks();
    } else if key == "Covering Tests" {
      SpelledCoveringTests();
    } else if key == "Parent" {
      SpelledParent();
    }
  }

  lemma SpelledStatus()
    ensures Underscored(Upper("Status")) == StatusKey
  {
    SpelledKey("Status", StatusKey);
  }

  lemma SpelledReferencedBy()
    ensures Underscored(Upper("Referenced by")) == ReferencedByKey
  {
    SpelledKey("Referenced by", ReferencedByKey);
  }

  lemma SpelledImplementingTasks()
    ensures Underscored(Upper("Implementing Tasks")) == ImplementingTasksKey
  {
    SpelledKey("Implementing Tasks", ImplementingTasksKey);
  }

  lemma SpelledCoveringTests()
    ensures Underscored(Upper("Covering Tests")) == CoveringTestsKey
  {
    SpelledKey("Covering Tests", CoveringTestsKey);
  }

  lemma SpelledParent()
    ensures Underscored(Upper("Parent")) == ParentKey
  {
    SpelledKey("Parent", ParentKey);
  }

  lemma SpelledKey(key: string, k: string)
    requires |key| == |k| && forall i :: 0 <= i < |key| ==> k[i] == (if key[i] == ' ' then '_' else UpperChar(key[i]))
    ensures Underscored(Upper(key)) == k
  {
  }

  /**
   * A Python dictionary as the sequence of its items in insertion order:
   * `d[k] = v` replaces the value of an existing key in place and appends
   * a new key at the end.
   */
  function Put(d: seq<(string, string)>, k: string, v: string): (r: seq<(string, string)>)
    decreases |d|
  {
    if d == [] then [(k, v)]
    else if d[0].0 == k then [(k, v)] + d[1..]
    else [d[0]] + Put(d[1..], k, v)
  }

  function KeysOf(d: seq<(string, string)>): set<string>
  {
    set i | 0 <= i < |d| :: d[i].0
  }

  predicate DistinctKeys(d: seq<(string, string)>)
  {
    forall i, j :: 0 <= i < j < |d| ==> d[i].0 != d[j].0
  }

  /** `d.get(k)`: the value of the first item with key `k`. */
  function Find(d: seq<(string, string)>, k: string): Option<string>
    decreases |d|
  {
    if d == [] then None
    else if d[0].0 == k then Some(d[0].1)
    else Find(d[1..], k)
  }

  /** The value the last of `updates` whose translated key is `k` carries. */
  function LastFor(updates: seq<(string, string)>, k: string): Option<string>
    decreases |updates|
  {
    if updates == [] then None
    else if HeaderKey(updates[|updates| - 1].0) == k then Some(updates[|updates| - 1].1)
    else LastFor(updates[..|updates| - 1], k)
  }

  /** The `header_updates` dictionary built from the old-style `updates`. */
  function HeaderUpdates(updates: seq<(string, string)>): seq<(string, string)>
    decreases |updates|
  {
    if updates == [] then []
    else
      var u := updates[|updates| - 1];
      Put(HeaderUpdates(updates[..|updates| - 1]), HeaderKey(u.0), u.1)
  }

  lemma KeysOfCons(h: (string, string), t: seq<(string, string)>)
    ensures KeysOf([h] + t) == {h.0} + KeysOf(t)
  {
    var d := [h] + t;
    forall x | x in KeysOf(d) ensures x in {h.0} + KeysOf(t) {
      var i :| 0 <= i < |d| && d[i].0 == x;
      if i > 0 { assert t[i - 1].0 == x; }
    }
    forall x | x in {h.0} + KeysOf(t) ensures x in KeysOf(d) {
      if x == h.0 {
        assert d[0].0 == x;
      } else {
        var i :| 0 <= i < |t| && t[i].0 == x;
        assert d[i + 1].0 == x;
      }
    }
  }

  lemma PutFacts(d: seq<(string, string)>, k: string, v: string)
    requires DistinctKeys(d)
    ensures KeysOf(Put(d, k, v)) == KeysOf(d) + {k}
    ensures DistinctKeys(Put(d, k, v))
    ensures forall k' :: Find(Put(d, k, v), k') == if k' == k then Some(v) else Find(d, k')
  {
    PutKeys(d, k, v);
    PutDistinct(d, k, v);
    PutFind(d, k, v);
  }

  /** `d[k] = v` adds `k` to the keys. */
  lemma {:induction false} PutKeys(d: seq<(string, string)>, k: string, v: string)
    ensures KeysOf(Put(d, k, v)) == KeysOf(d) + {k}
    decreases |d|
  {
    if d == [] {
      KeysOfCons((k, v), []);
    } else {
      assert d == [d[0]] + d[1..];
      KeysOfCons(d[0], d[1..]);
      if d[0].0 == k {
        KeysOfCons((k, v), d[1..]);
      } else {
        PutKeys(d[1..], k, v);
        KeysOfCons(d[0], Put(d[1..], k, v));
      }
    }
  }

  /** `d[k] = v` keeps every key once. */
  lemma {:induction false} PutDistinct(d: seq<(string, string)>, k: string, v: string)
    requires DistinctKeys(d)
    ensures DistinctKeys(Put(d, k, v))
    decreases |d|
  {
    if d != [] {
      var r := Put(d, k, v);
      if d[0].0 == k {
        assert r == [(k, v)] + d[1..];
        forall i, j | 0 <= i < j < |r| ensures r[i].0 != r[j].0 {
          assert r[j] == d[j];
          if i > 0 { assert r[i] == d[i]; }
        }
      } else {
        HeadNotInTail(d);
        PutDistinct(d[1..], k, v);
        PutKeys(d[1..], k, v);
        var p := Put(d[1..], k, v);
        assert r == [d[0]] + p;
        forall i, j | 0 <= i < j < |r| ensures r[i].0 != r[j].0 {
          if i == 0 {
            assert r[j].0 == p[j - 1].0 && p[j - 1].0 in KeysOf(p);
          } else {
            assert r[i] == p[i - 1] && r[j] == p[j - 1];
          }
        }
      }
    }
  }

  /** The first key of a dictionary with distinct keys is not among the others. */
  lemma HeadNotInTail(d: seq<(string, string)>)
    requires d != [] && DistinctKeys(d)
    ensures d[0].0 !in KeysOf(d[1..])
  {
    forall i | 0 <= i < |d[1..]| ensures d[1..][i].0 != d[0].0 {
      assert d[1..][i] == d[i + 1];
    }
  }

  /** Reading a key after `d[k] = v`. */
  lemma {:induction false} PutFind(d: seq<(string, string)>, k: string, v: string)
    ensures forall k' :: Find(Put(d, k, v), k') == if k' == k then Some(v) else Find(d, k')
    decreases |d|
  {
    if d != [] && d[0].0 != k {
      PutFind(d[1..], k, v);
      var p := Put(d[1..], k, v);
      assert Put(d, k, v) == [d[0]] + p;
      assert ([d[0]] + p)[1..] == p;
    }
  }

  /**
   * The translated updates behave as the dictionary the source builds:
   * each translated key appears once, and reading it gives the value of
   * the last update that translates to it.
   */
  lemma {:induction false} HeaderUpdatesDict(updates: seq<(string, string)>)
    ensures DistinctKeys(HeaderUpdates(updates))
    ensures forall k :: Find(HeaderUpdates(updates), k) == LastFor(updates, k)
    decreases |updates|
  {
    if updates != [] {
      var init := updates[..|updates| - 1];
      var u := updates[|updates| - 1];
      HeaderUpdatesDict(init);
      PutFacts(HeaderUpdates(init), HeaderKey(u.0), u.1);
    }
  }

  // ---------------------------------------------------- legacy metadata lines

  /** The metadata keys the legacy rewrite knows, in the order it writes them. */
  const LegacyOrder: seq<string> := ["Status", "Referenced by"]

  /** The first of `keys` whose `key:` begins `t`. */
  function FirstKey(t: string, keys: seq<string>): (r: Option<string>)
    ensures r.Some? ==> r.value in keys && StartsWith(t, r.value + ":")
    decreases |keys|
  {
    if keys == [] then None
    else if StartsWith(t, keys[0] + ":") then Some(keys[0])
    else FirstKey(t, keys[1..])
  }

  /** The key of a legacy metadata line; None for a blank or any other line. */
  function MetaKey(line: string): Option<string>
  {
    FirstKey(Strip(line), LegacyOrder)
  }

  /**
   * The rewrite below is stated for any classification `mk` of lines into
   * keys; the source's is MetaKey. Its proofs use only the facts about
   * MetaKey that KeyFacts lists.
   */
  function Meta(mk: string -> Option<string>): string -> bool
  {
    line => mk(line).Some?
  }

  /** Where the run of lines satisfying `p` that starts at `i` ends. */
  function RunEnd(lines: seq<string>, i: nat, p: string -> bool): (r: nat)
    requires i <= |lines|
    ensures i <= r <= |lines|
    ensures forall k :: i <= k < r ==> p(lines[k])
    ensures r < |lines| ==> !p(lines[r])
    decreases |lines| - i
  {
    if i == |lines| || !p(lines[i]) then i else RunEnd(lines, i + 1, p)
  }

  /** The converse: a run ended by a line outside it, or by the end, is the run. */
  lemma {:induction false} RunEndIs(lines: seq<string>, i: nat, j: nat, p: string -> bool)
    requires i <= j <= |lines|
    requires forall k :: i <= k < j ==> p(lines[k])
    requires j < |lines| ==> !p(lines[j])
    ensures RunEnd(lines, i, p) == j
    decreases j - i
  {
    if i < j {
      RunEndIs(lines, i + 1, j, p);
    }
  }

  /** The stripped text of the last line of `lines[1..j]` that `mk` gives `key`. */
  function LastMeta(lines: seq<string>, j: nat, key: string, mk: string -> Option<string>): Option<string>
    requires j <= |lines|
    decreases j
  {
    if j <= 1 then None
    else if mk(lines[j - 1]) == Some(key) then Some(Strip(lines[j - 1]))
    else LastMeta(lines, j - 1, key, mk)
  }

  /** The last value given for `key` in a dictionary's items. */
  function Lookup(d: seq<(string, string)>, key: string): Option<string>
    decreases |d|
  {
    if d == [] then None
    else if d[|d| - 1].0 == key then Some(d[|d| - 1].1)
    else Lookup(d[..|d| - 1], key)
  }

  /** The line written for `key`: the update as `key: value`, else the existing line. */
  function MetaLine(lines: seq<string>, e: nat, updates: seq<(string, string)>, key: string,
                    mk: string -> Option<string>): Option<string>
    requires e <= |lines|
  {
    match Lookup(updates, key)
    case Some(v) => Some(key + ": " + v)
    case None => LastMeta(lines, e, key, mk)
  }

  function AsSeq(o: Option<string>): seq<string>
  {
    match o
    case Some(l) => [l]
    case None => []
  }

  /** The lines written for `keys`, in order, skipping the keys without one. */
  function Inserted(lines: seq<string>, e: nat, updates: seq<(string, string)>, keys: seq<string>,
                    mk: string -> Option<string>): seq<string>
    requires e <= |lines|
    decreases |keys|
  {
    if keys == [] then []
    else
      Inserted(lines, e, updates, keys[..|keys| - 1], mk)
        + AsSeq(MetaLine(lines, e, updates, keys[|keys| - 1], mk))
  }

  /** The rewrite under classification `mk`, writing the keys of `order`. */
  function Legacy(lines: seq<string>, updates: seq<(string, string)>, order: seq<string>,
                  mk: string -> Option<string>): seq<string>
  {
    if lines == [] then []
    else
      var e := RunEnd(lines, 1, Meta(mk));
      [lines[0]] + Inserted(lines, e, updates, order, mk) + lines[e..]
  }

  /** `_legacy_manage_header_metadata_lines` */
  function LegacyLines(lines: seq<string>, updates: seq<(string, string)>): seq<string>
  {
    Legacy(lines, updates, LegacyOrder, MetaKey)
  }

  /** Where the run of metadata lines after the header line ends. */
  function MetaEnd(lines: seq<string>): (r: nat)
    requires |lines| >= 1
  {
    RunEnd(lines, 1, Meta(MetaKey))
  }

  // ------------------------------------------------------ the legacy method

  /** The inner loop over the known keys. */
  method MatchKey(line: string) returns (k: Option<string>)
    ensures k == FirstKey(line, LegacyOrder)
  {
    k := None;
    var q := 0;
    while q < |LegacyOrder|
      invariant q <= |LegacyOrder|
      invariant FirstKey(line, LegacyOrder) == FirstKey(line, LegacyOrder[q..])
    {
      assert LegacyOrder[q..][1..] == LegacyOrder[q + 1..];
      if StartsWith(line, LegacyOrder[q] + ":") {
        k := Some(LegacyOrder[q]);
        return;
      }
      q := q + 1;
    }
  }

  /** What the legacy rewrite writes for the known keys, as a map. */
  ghost predicate Writes(all: map<string, string>, lines: seq<string>, e: nat, updates: seq<(string, string)>,
                   mk: string -> Option<string>)
    requires e <= |lines|
  {
    forall key ::
      (key in all <==> MetaLine(lines, e, updates, key, mk).Some?)
      && (key in all ==> all[key] == MetaLine(lines, e, updates, key, mk).value)
  }

  /** The scan: the metadata lines after the header line, by key, and their positions. */
  method ScanMetadata(lines: seq<string>) returns (existing: map<string, string>, indices: seq<nat>)
    requires |lines| >= 1
    ensures |indices| == MetaEnd(lines) - 1 && forall k :: 0 <= k < |indices| ==> indices[k] == k + 1
    ensures Writes(existing, lines, MetaEnd(lines), [], MetaKey)
  {
    existing := map[];
    indices := [];
    var i := 1;
    ScanStart(lines, MetaKey);
    while i < |lines|
      invariant 1 <= i <= |lines| && RunEnd(lines, i, Meta(MetaKey)) == MetaEnd(lines)
      invariant |indices| == i - 1 && forall k :: 0 <= k < |indices| ==> indices[k] == k + 1
      invariant Writes(existing, lines, i, [], MetaKey)
    {
      var line := Strip(lines[i]);
      if line == [] {
        assert i == MetaEnd(lines) by { BlankBreak(lines, i); }
        break;
      }
      var k := MatchKey(line);
      if k.None? {
        assert i == MetaEnd(lines) by {
          assert MetaKey(lines[i]) == k;
          RunBreak(lines, i, MetaKey);
        }
        break;
      }
      assert MetaKey(lines[i]) == k;
      ScanStep(existing, lines, i, MetaKey);
      existing := existing[k.value := line];
      indices := indices + [i];
      i := i + 1;
    }
  }

  /** A blank line ends the run of metadata lines. */
  lemma BlankBreak(lines: seq<string>, i: nat)
    requires 1 <= i < |lines| && Strip(lines[i]) == [] && RunEnd(lines, i, Meta(MetaKey)) == MetaEnd(lines)
    ensures i == MetaEnd(lines)
  {
    assert FirstKey(Strip(lines[i]), LegacyOrder) == None;
    RunBreak(lines, i, MetaKey);
  }

  /** A line `mk` gives no key ends the run. */
  lemma RunBreak(lines: seq<string>, i: nat, mk: string -> Option<string>)
    requires i < |lines| && mk(lines[i]).None?
    ensures RunEnd(lines, i, Meta(mk)) == i
  {
  }

  /** Nothing scanned yet. */
  lemma ScanStart(lines: seq<string>, mk: string -> Option<string>)
    requires |lines| >= 1
    ensures Writes(map[], lines, 1, [], mk)
  {
    forall key ensures MetaLine(lines, 1, [], key, mk) == None {
    }
  }

  /** One metadata line scanned. */
  lemma ScanStep(existing: map<string, string>, lines: seq<string>, i: nat, mk: string -> Option<string>)
    requires 1 <= i < |lines| && mk(lines[i]).Some? && Writes(existing, lines, i, [], mk)
    ensures Writes(existing[mk(lines[i]).value := Strip(lines[i])], lines, i + 1, [], mk)
  {
    var k := mk(lines[i]).value;
    var all := existing[k := Strip(lines[i])];
    forall key
      ensures (key in all <==> MetaLine(lines, i + 1, [], key, mk).Some?)
        && (key in all ==> all[key] == MetaLine(lines, i + 1, [], key, mk).value)
    {
      assert MetaLine(lines, i + 1, [], key, mk) == LastMeta(lines, i + 1, key, mk);
      assert MetaLine(lines, i, [], key, mk) == LastMeta(lines, i, key, mk);
      assert LastMeta(lines, i + 1, key, mk) == if key == k then Some(Strip(lines[i])) else LastMeta(lines, i, key, mk);
    }
  }

  /** `all_metadata`: the existing lines, overridden by the updates in order. */
  method MergeUpdates(existing: map<string, string>, lines: seq<string>, e: nat, updates: seq<(string, string)>)
    returns (all: map<string, string>)
    requires e <= |lines| && Writes(existing, lines, e, [], MetaKey)
    ensures Writes(all, lines, e, updates, MetaKey)
  {
    all := existing;
    var j := 0;
    while j < |updates|
      invariant j <= |updates| && Writes(all, lines, e, updates[..j], MetaKey)
    {
      assert updates[..j + 1][..j] == updates[..j];
      all := all[updates[j].0 := updates[j].0 + ": " + updates[j].1];
      j := j + 1;
    }
    assert updates[..|updates|] == updates;
  }

  /** The pops, highest position first, of the scanned lines. */
  method RemoveScanned(lines: seq<string>, indices: seq<nat>) returns (cur: seq<string>)
    requires |indices| < |lines| && forall k :: 0 <= k < |indices| ==> indices[k] == k + 1
    ensures cur == [lines[0]] + lines[|indices| + 1..]
  {
    var e := |indices| + 1;
    cur := lines;
    assert lines == lines[..e] + lines[e..];
    var p := |indices|;
    while p > 0
      invariant 0 <= p <= |indices| && cur == lines[..p + 1] + lines[e..]
    {
      var idx := indices[p - 1];
      cur := cur[..idx] + cur[idx + 1..];
      assert cur == lines[..p] + lines[e..] by {
        assert lines[..p + 1] == lines[..p] + [lines[p]];
      }
      p := p - 1;
    }
    assert lines[..1] == [lines[0]];
  }

  /** The insertions after the header line, in the legacy key order. */
  method InsertInOrder(lines: seq<string>, e: nat, updates: seq<(string, string)>, all: map<string, string>, kept: seq<string>)
    returns (cur: seq<string>)
    requires 1 <= e <= |lines| && Writes(all, lines, e, updates, MetaKey) && kept == [lines[0]] + lines[e..]
    ensures cur == [lines[0]] + Inserted(lines, e, updates, LegacyOrder, MetaKey) + lines[e..]
  {
    cur := kept;
    var pos := 1;
    var q := 0;
    while q < |LegacyOrder|
      invariant q <= |LegacyOrder|
      invariant cur == [lines[0]] + Inserted(lines, e, updates, LegacyOrder[..q], MetaKey) + lines[e..]
      invariant pos == 1 + |Inserted(lines, e, updates, LegacyOrder[..q], MetaKey)|
    {
      var key := LegacyOrder[q];
      InsertStep(lines, e, updates, LegacyOrder, q, all, MetaKey, cur, pos);
      if key in all {
        cur := cur[..pos] + [all[key]] + cur[pos..];
        pos := pos + 1;
      }
      q := q + 1;
    }
    assert LegacyOrder[..|LegacyOrder|] == LegacyOrder;
  }

  /** One round of the insertion loop keeps its invariant. */
  lemma InsertStep(lines: seq<string>, e: nat, updates: seq<(string, string)>, keys: seq<string>, q: nat,
                   all: map<string, string>, mk: string -> Option<string>, cur: seq<string>, pos: nat)
    requires 1 <= e <= |lines| && q < |keys| && Writes(all, lines, e, updates, mk)
    requires cur == [lines[0]] + Inserted(lines, e, updates, keys[..q], mk) + lines[e..]
    requires pos == 1 + |Inserted(lines, e, updates, keys[..q], mk)|
    ensures var next := Inserted(lines, e, updates, keys[..q + 1], mk);
      if keys[q] in all then
        cur[..pos] + [all[keys[q]]] + cur[pos..] == [lines[0]] + next + lines[e..] && pos + 1 == 1 + |next|
      else
        cur == [lines[0]] + next + lines[e..] && pos == 1 + |next|
  {
    var pre := Inserted(lines, e, updates, keys[..q], mk);
    InsertOne(lines, e, updates, keys, q, all, mk);
    if keys[q] in all {
      Splice([lines[0]], pre, [all[keys[q]]], lines[e..]);
    }
  }

  /** An insertion at the end of the middle part. */
  lemma Splice<T>(h: seq<T>, m: seq<T>, x: seq<T>, t: seq<T>)
    ensures (h + m + t)[..|h| + |m|] + x + (h + m + t)[|h| + |m|..] == h + (m + x) + t
  {
    assert (h + m + t)[..|h| + |m|] == h + m;
    assert (h + m + t)[|h| + |m|..] == t;
  }

  /** One more key of the order inserted. */
  lemma InsertOne(lines: seq<string>, e: nat, updates: seq<(string, string)>, keys: seq<string>, q: nat,
                  all: map<string, string>, mk: string -> Option<string>)
    requires e <= |lines| && q < |keys| && Writes(all, lines, e, updates, mk)
    ensures Inserted(lines, e, updates, keys[..q + 1], mk)
         == Inserted(lines, e, updates, keys[..q], mk) + (if keys[q] in all then [all[keys[q]]] else [])
  {
    assert keys[..q + 1][..q] == keys[..q];
  }

  /** `_legacy_manage_header_metadata_lines`, step by step. */
  method LegacyManageHeaderMetadataLines(lines: seq<string>, updates: seq<(string, string)>) returns (r: seq<string>)
    ensures r == LegacyLines(lines, updates)
  {
    if |lines| == 0 {
      return lines;
    }
    var existing, indices := ScanMetadata(lines);
    var all := MergeUpdates(existing, lines, MetaEnd(lines), updates);
    var kept := RemoveScanned(lines, indices);
    r := InsertInOrder(lines, MetaEnd(lines), updates, all, kept);
  }

  // ------------------------------------------------------ legacy properties

  /** The two keys' lines, the first key's first. */
  lemma InsertedPair(lines: seq<string>, e: nat, updates: seq<(string, string)>, order: seq<string>,
                     mk: string -> Option<string>)
    requires e <= |lines| && |order| == 2
    ensures Inserted(lines, e, updates, order, mk)
      == AsSeq(MetaLine(lines, e, updates, order[0], mk)) + AsSeq(MetaLine(lines, e, updates, order[1], mk))
  {
    var o1 := order[..1];
    assert |o1| == 1 && o1[0] == order[0] && o1[..0] == [];
    assert Inserted(lines, e, updates, o1, mk) == AsSeq(MetaLine(lines, e, updates, order[0], mk));
    assert order[..|order| - 1] == o1;
  }

  /** Stripping keeps a head that begins and ends with non-whitespace. */
  lemma StripKeepsHead(p: string, t: string)
    requires p != [] && !IsSpace(p[0]) && !IsSpace(p[|p| - 1])
    ensures StartsWith(Strip(p + t), p)
  {
    var s := p + t;
    assert s[0] == p[0] && s[|p| - 1] == p[|p| - 1] && s[..|p|] == p;
    StripKeepsPrefix(s, |p|);
  }

  /** Stripping a text that begins with non-whitespace keeps its prefix up to a non-whitespace character. */
  lemma StripKeepsPrefix(s: string, n: nat)
    requires 1 <= n <= |s| && !IsSpace(s[0]) && !IsSpace(s[n - 1])
    ensures StartsWith(Strip(s), s[..n])
  {
    assert LStrip(s) == s;
    RStripKeepsNonSpace(s, n - 1);
    PrefixKept(s, RStrip(s), s[..n]);
  }

  /** A prefix of `s` at least as long as `p`, when `p` starts `s`, starts with `p` too. */
  lemma PrefixKept<T>(s: seq<T>, r: seq<T>, p: seq<T>)
    requires |p| <= |r| <= |s| && r == s[..|r|] && s[..|p|] == p
    ensures r[..|p|] == p
  {
    assert r[..|p|] == s[..|p|];
  }

  /** An update's line is a metadata line of its key. */
  lemma UpdateLineKey(key: string, v: string)
    requires key in LegacyOrder
    ensures MetaKey(key + ": " + v) == Some(key)
  {
    var line := key + ": " + v;
    assert line == (key + ":") + (" " + v);
    StripKeepsHead(key + ":", " " + v);
    var t := Strip(line);
    if key == "Referenced by" {
      assert t[0] == 'R';
      assert !StartsWith(t, "Status:");
    }
  }

  /** An existing line the scan keeps is stripped and of its key. */
  lemma {:induction false} LastMetaFacts(lines: seq<string>, j: nat, key: string)
    requires j <= |lines|
    ensures LastMeta(lines, j, key, MetaKey).Some? ==>
      MetaKey(LastMeta(lines, j, key, MetaKey).value) == Some(key)
      && Strip(LastMeta(lines, j, key, MetaKey).value) == LastMeta(lines, j, key, MetaKey).value
    decreases j
  {
    if j > 1 {
      if MetaKey(lines[j - 1]) == Some(key) {
        StripIdempotent(lines[j - 1]);
      } else {
        LastMetaFacts(lines, j - 1, key);
      }
    }
  }

  /**
   * What the rewrite needs of a key's written line: the classification gives
   * it back its key, and a line kept from the content is already stripped.
   */
  ghost predicate Rescannable(lines: seq<string>, e: nat, updates: seq<(string, string)>, key: string,
                              mk: string -> Option<string>)
    requires e <= |lines|
  {
    var m := MetaLine(lines, e, updates, key, mk);
    m.Some? ==> mk(m.value) == Some(key) && (Lookup(updates, key).None? ==> Strip(m.value) == m.value)
  }

  /** Under MetaKey, every known key's written line is rescannable. */
  lemma MetaLineFacts(lines: seq<string>, e: nat, updates: seq<(string, string)>, key: string)
    requires e <= |lines| && key in LegacyOrder
    ensures Rescannable(lines, e, updates, key, MetaKey)
  {
    match Lookup(updates, key)
    case Some(v) => UpdateLineKey(key, v);
    case None => LastMetaFacts(lines, e, key);
  }

  /** Where the rewrite puts each key's line: the first key's right after the header line. */
  lemma PairPlaced(lines: seq<string>, updates: seq<(string, string)>, order: seq<string>, mk: string -> Option<string>)
    requires lines != [] && |order| == 2
    ensures var r := Legacy(lines, updates, order, mk); var e := RunEnd(lines, 1, Meta(mk));
      var m0 := MetaLine(lines, e, updates, order[0], mk);
      var m1 := MetaLine(lines, e, updates, order[1], mk);
      (m0.Some? ==> |r| > 1 && r[1] == m0.value)
      && (m1.Some? ==> |r| > |AsSeq(m0)| + 1 && r[|AsSeq(m0)| + 1] == m1.value)
  {
    InsertedPair(lines, RunEnd(lines, 1, Meta(mk)), updates, order, mk);
  }

  /** A Status update is written as the line right after the header line. */
  lemma LegacyStatus(lines: seq<string>, updates: seq<(string, string)>, v: string)
    requires lines != [] && Lookup(updates, "Status") == Some(v)
    ensures |LegacyLines(lines, updates)| >= 2 && LegacyLines(lines, updates)[1] == "Status" + ": " + v
  {
    PairPlaced(lines, updates, LegacyOrder, MetaKey);
  }

  /** A Referenced-by update is written after the header line and the Status line, if any. */
  lemma LegacyReference(lines: seq<string>, updates: seq<(string, string)>, v: string)
    requires lines != [] && Lookup(updates, "Referenced by") == Some(v)
    ensures var r := LegacyLines(lines, updates);
      var k := if MetaLine(lines, MetaEnd(lines), updates, "Status", MetaKey).Some? then 2 else 1;
      k < |r| && r[k] == "Referenced by" + ": " + v
  {
    PairPlaced(lines, updates, LegacyOrder, MetaKey);
  }

  /** Lines the rewrite does not touch: the header line and everything after the metadata run. */
  lemma LegacyKeeps(lines: seq<string>, updates: seq<(string, string)>)
    requires lines != []
    ensures var r := LegacyLines(lines, updates); var e := MetaEnd(lines);
      r != [] && r[0] == lines[0] && |r| >= |lines| - e && r[|r| - (|lines| - e)..] == lines[e..]
  {
  }

  /** Running the legacy rewrite again with the same updates changes nothing. */
  lemma LegacyIdempotent(lines: seq<string>, updates: seq<(string, string)>)
    ensures LegacyLines(LegacyLines(lines, updates), updates) == LegacyLines(lines, updates)
  {
    if lines != [] {
      MetaLineFacts(lines, MetaEnd(lines), updates, LegacyOrder[0]);
      MetaLineFacts(lines, MetaEnd(lines), updates, LegacyOrder[1]);
      Rewritten(lines, updates, LegacyOrder, MetaKey);
    }
  }

  /** The same, for any two distinct keys whose written lines are rescannable. */
  lemma Rewritten(lines: seq<string>, updates: seq<(string, string)>, order: seq<string>, mk: string -> Option<string>)
    requires lines != [] && |order| == 2 && order[0] != order[1]
    requires Rescannable(lines, RunEnd(lines, 1, Meta(mk)), updates, order[0], mk)
    requires Rescannable(lines, RunEnd(lines, 1, Meta(mk)), updates, order[1], mk)
    ensures Legacy(Legacy(lines, updates, order, mk), updates, order, mk) == Legacy(lines, updates, order, mk)
  {
    var e := RunEnd(lines, 1, Meta(mk));
    var st := MetaLine(lines, e, updates, order[0], mk);
    var rf := MetaLine(lines, e, updates, order[1], mk);
    FirstPass(lines, updates, order, mk);
    SecondPass(lines, e, updates, order, mk, st, rf, [lines[0]] + AsSeq(st) + AsSeq(rf) + lines[e..]);
  }

  /** The rewrite of two keys: the header line, each key's line if any, and the lines after the run. */
  lemma FirstPass(lines: seq<string>, updates: seq<(string, string)>, order: seq<string>, mk: string -> Option<string>)
    requires lines != [] && |order| == 2
    ensures var e := RunEnd(lines, 1, Meta(mk));
      Legacy(lines, updates, order, mk)
        == [lines[0]] + AsSeq(MetaLine(lines, e, updates, order[0], mk)) + AsSeq(MetaLine(lines, e, updates, order[1], mk)) + lines[e..]
  {
    var e := RunEnd(lines, 1, Meta(mk));
    LegacyUnfold(lines, updates, order, mk, e);
    InsertedPair(lines, e, updates, order, mk);
    Regroup([lines[0]], AsSeq(MetaLine(lines, e, updates, order[0], mk)), AsSeq(MetaLine(lines, e, updates, order[1], mk)), lines[e..]);
  }

  /** Concatenation regrouped. */
  lemma Regroup<T>(h: seq<T>, a: seq<T>, b: seq<T>, t: seq<T>)
    ensures h + (a + b) + t == h + a + b + t
  {
  }

  /** The rewrite applied to its own output `r`. */
  lemma SecondPass(lines: seq<string>, e: nat, updates: seq<(string, string)>, order: seq<string>,
                   mk: string -> Option<string>, st: Option<string>, rf: Option<string>, r: seq<string>)
    requires lines != [] && |order| == 2 && order[0] != order[1] && e == RunEnd(lines, 1, Meta(mk))
    requires st == MetaLine(lines, e, updates, order[0], mk) && rf == MetaLine(lines, e, updates, order[1], mk)
    requires Rescannable(lines, e, updates, order[0], mk) && Rescannable(lines, e, updates, order[1], mk)
    requires r == [lines[0]] + AsSeq(st) + AsSeq(rf) + lines[e..]
    ensures Legacy(r, updates, order, mk) == r
  {
    SecondFacts(lines, e, updates, order, mk, st, rf, r);
    LegacyOf(r, updates, order, mk, 1 + |AsSeq(st)| + |AsSeq(rf)|);
  }

  /** The run, the written lines and the pieces of the rewrite's own output. */
  lemma SecondFacts(lines: seq<string>, e: nat, updates: seq<(string, string)>, order: seq<string>,
                    mk: string -> Option<string>, st: Option<string>, rf: Option<string>, r: seq<string>)
    requires lines != [] && |order| == 2 && order[0] != order[1] && e == RunEnd(lines, 1, Meta(mk))
    requires st == MetaLine(lines, e, updates, order[0], mk) && rf == MetaLine(lines, e, updates, order[1], mk)
    requires Rescannable(lines, e, updates, order[0], mk) && Rescannable(lines, e, updates, order[1], mk)
    requires r == [lines[0]] + AsSeq(st) + AsSeq(rf) + lines[e..]
    ensures var e2 := 1 + |AsSeq(st)| + |AsSeq(rf)|;
      e2 <= |r| && RunEnd(r, 1, Meta(mk)) == e2
      && Inserted(r, e2, updates, order, mk) == r[1..e2]
  {
    var e2 := 1 + |AsSeq(st)| + |AsSeq(rf)|;
    SecondLines(lines, e, updates, order, mk, st, rf, r);
    Rerun(r, st, rf, lines, e, mk);
    InsertedPair(r, e2, updates, order, mk);
    SplitAt(r, lines[0], AsSeq(st), AsSeq(rf), lines[e..]);
  }

  /** The pieces of lines put together from a head, two runs and a tail. */
  lemma SplitAt<T>(r: seq<T>, h: T, a: seq<T>, b: seq<T>, t: seq<T>)
    requires r == [h] + a + b + t
    ensures |r| >= 1 + |a| + |b| && r[1..1 + |a| + |b|] == a + b
  {
  }

  /** `Legacy` on non-empty lines, with the run's end named. */
  lemma LegacyUnfold(r: seq<string>, updates: seq<(string, string)>, order: seq<string>,
                     mk: string -> Option<string>, e: nat)
    requires r != [] && e == RunEnd(r, 1, Meta(mk))
    ensures Legacy(r, updates, order, mk) == [r[0]] + Inserted(r, e, updates, order, mk) + r[e..]
  {
  }

  /** The rewrite of lines whose run ends at `e2` and whose written lines are already `r[1..e2]`. */
  lemma LegacyOf(r: seq<string>, updates: seq<(string, string)>, order: seq<string>,
                 mk: string -> Option<string>, e2: nat)
    requires 1 <= e2 <= |r| && RunEnd(r, 1, Meta(mk)) == e2
    requires Inserted(r, e2, updates, order, mk) == r[1..e2]
    ensures Legacy(r, updates, order, mk) == r
  {
    LegacyUnfold(r, updates, order, mk, e2);
    assert r == [r[0]] + r[1..e2] + r[e2..];
  }

  /** Scanning the rewritten lines again finds each key's written line. */
  lemma SecondLines(lines: seq<string>, e: nat, updates: seq<(string, string)>, order: seq<string>,
                    mk: string -> Option<string>, st: Option<string>, rf: Option<string>, r: seq<string>)
    requires lines != [] && |order| == 2 && order[0] != order[1] && e == RunEnd(lines, 1, Meta(mk))
    requires st == MetaLine(lines, e, updates, order[0], mk) && rf == MetaLine(lines, e, updates, order[1], mk)
    requires Rescannable(lines, e, updates, order[0], mk) && Rescannable(lines, e, updates, order[1], mk)
    requires r == [lines[0]] + AsSeq(st) + AsSeq(rf) + lines[e..]
    ensures 1 + |AsSeq(st)| + |AsSeq(rf)| <= |r|
    ensures (st.Some? ==> mk(st.value).Some?) && (rf.Some? ==> mk(rf.value).Some?)
    ensures MetaLine(r, 1 + |AsSeq(st)| + |AsSeq(rf)|, updates, order[0], mk) == st
    ensures MetaLine(r, 1 + |AsSeq(st)| + |AsSeq(rf)|, updates, order[1], mk) == rf
  {
    var e2 := 1 + |AsSeq(st)| + |AsSeq(rf)|;
    assert st.Some? ==> r[1] == st.value;
    assert rf.Some? ==> r[1 + |AsSeq(st)|] == rf.value;
    ScanWritten(r, order[0], st, order[1], rf, mk);
    MetaLineAgain(lines, e, r, e2, updates, order[0], mk);
    MetaLineAgain(lines, e, r, e2, updates, order[1], mk);
  }

  /** A key's line, written and scanned again, is written the same way. */
  lemma MetaLineAgain(lines: seq<string>, e: nat, r: seq<string>, e2: nat, updates: seq<(string, string)>,
                      key: string, mk: string -> Option<string>)
    requires e <= |lines| && e2 <= |r| && Rescannable(lines, e, updates, key, mk)
    requires var m := MetaLine(lines, e, updates, key, mk);
      LastMeta(r, e2, key, mk) == if m.Some? then Some(Strip(m.value)) else None
    ensures MetaLine(r, e2, updates, key, mk) == MetaLine(lines, e, updates, key, mk)
  {
  }

  /** The metadata run of the rewritten lines is the written block. */
  lemma Rerun(r: seq<string>, st: Option<string>, rf: Option<string>, lines: seq<string>, e: nat,
              mk: string -> Option<string>)
    requires |lines| >= 1 && e == RunEnd(lines, 1, Meta(mk))
    requires st.Some? ==> mk(st.value).Some?
    requires rf.Some? ==> mk(rf.value).Some?
    requires r == [lines[0]] + AsSeq(st) + AsSeq(rf) + lines[e..]
    ensures RunEnd(r, 1, Meta(mk)) == 1 + |AsSeq(st)| + |AsSeq(rf)|
  {
    var ins := AsSeq(st) + AsSeq(rf);
    var e2 := 1 + |ins|;
    assert forall k :: 1 <= k < e2 ==> r[k] == ins[k - 1];
    assert e2 < |r| ==> r[e2] == lines[e];
    RunEndIs(r, 1, e2, Meta(mk));
  }

  /** Scanning the written block finds, for each key, the line written for it. */
  lemma ScanWritten(r: seq<string>, k1: string, st: Option<string>, k2: string, rf: Option<string>,
                    mk: string -> Option<string>)
    requires k1 != k2
    requires st.Some? ==> mk(st.value) == Some(k1)
    requires rf.Some? ==> mk(rf.value) == Some(k2)
    requires |r| > |AsSeq(st)| + |AsSeq(rf)|
    requires st.Some? ==> r[1] == st.value
    requires rf.Some? ==> r[1 + |AsSeq(st)|] == rf.value
    ensures LastMeta(r, 1 + |AsSeq(st)| + |AsSeq(rf)|, k1, mk) == if st.Some? then Some(Strip(st.value)) else None
    ensures LastMeta(r, 1 + |AsSeq(st)| + |AsSeq(rf)|, k2, mk) == if rf.Some? then Some(Strip(rf.value)) else None
  {
    var i := 1 + |AsSeq(st)|;
    if rf.Some? {
      assert LastMeta(r, i + 1, k1, mk) == LastMeta(r, i, k1, mk);
    }
  }

  // ------------------------------------------------------ managed metadata

  /** `d.get(k, '')` */
  function Get(m: map<string, string>, k: string): (r: string)
    ensures k in m ==> r == m[k]
    ensures k !in m ==> r == []
  {
    if k in m then m[k] else []
  }

  /**
   * `_manage_header_metadata_lines`: the managed-header update with the keys
   * translated; when that raises, the legacy rewrite of the content's lines.
   */
  function ManageHeaderMetadata(reg: Registry, items: seq<HeaderItem>, content: string,
                                updates: seq<(string, string)>): string
  {
    match Update(reg, items, content, HeaderUpdates(updates))
    case Success(c) => c
    case Failure(_) => Join(LegacyLines(Split(content, '\n'), updates), '\n')
  }

  /** True when the managed-header update of `content` succeeds. */
  predicate Managed(reg: Registry, content: string)
  {
    Strip(content) != [] && ExtractTypeAndId(reg, content).Success? && ExtractTypeAndId(reg, content).value.Some?
  }

  /** The managed path is taken exactly for a non-blank content of a detected type; the legacy one otherwise. */
  lemma ManageOutcome(reg: Registry, items: seq<HeaderItem>, content: string, updates: seq<(string, string)>)
    ensures Managed(reg, content) ==>
      Update(reg, items, content, HeaderUpdates(updates)).Success?
      && ManageHeaderMetadata(reg, items, content, updates) == Update(reg, items, content, HeaderUpdates(updates)).value
    ensures !Managed(reg, content) ==>
      ManageHeaderMetadata(reg, items, content, updates) == Join(LegacyLines(Split(content, '\n'), updates), '\n')
  {
    if Managed(reg, content) {
      ManagedOutcome(reg, items, content, updates);
    } else {
      LegacyOutcome(reg, items, content, updates);
    }
  }

  lemma ManagedOutcome(reg: Registry, items: seq<HeaderItem>, content: string, updates: seq<(string, string)>)
    requires Managed(reg, content)
    ensures Update(reg, items, content, HeaderUpdates(updates)).Success?
      && ManageHeaderMetadata(reg, items, content, updates) == Update(reg, items, content, HeaderUpdates(updates)).value
  {
    UpdateOutcomes(reg, items, content, HeaderUpdates(updates));
    MetadataCases(reg, items, content, updates);
  }

  lemma LegacyOutcome(reg: Registry, items: seq<HeaderItem>, content: string, updates: seq<(string, string)>)
    requires !Managed(reg, content)
    ensures ManageHeaderMetadata(reg, items, content, updates) == Join(LegacyLines(Split(content, '\n'), updates), '\n')
  {
    UpdateOutcomes(reg, items, content, HeaderUpdates(updates));
    MetadataCases(reg, items, content, updates);
  }

  /** The two paths of `_manage_header_metadata_lines`, by the outcome of the update. */
  lemma MetadataCases(reg: Registry, items: seq<HeaderItem>, content: string, updates: seq<(string, string)>)
    ensures var u := Update(reg, items, content, HeaderUpdates(updates));
      (u.Success? ==> ManageHeaderMetadata(reg, items, content, updates) == u.value)
      && (u.Failure? ==> ManageHeaderMetadata(reg, items, content, updates) == Join(LegacyLines(Split(content, '\n'), updates), '\n'))
  {
  }

  /**
   * On the managed path the result reads back with the same header line and
   * body and the translated updates applied to the headers.
   */
  lemma ManageReadsBack(reg: Registry, items: seq<HeaderItem>, content: string, updates: seq<(string, string)>,
                         hu: seq<(string, string)>)
    requires WellFormed(items) && Managed(reg, content)
    requires HeaderUpdates(updates) == hu && CleanValues(hu)
    ensures Parse(reg, items, content).Success?
    ensures var p := Parse(reg, items, content).value;
      var app := ManagedHeadersFor(items, ExtractTypeAndId(reg, content).value.value.0);
      Parse(reg, items, ManageHeaderMetadata(reg, items, content, updates))
        == Success(Parsed(p.headerLine, ApplyAll(app, p.headers, hu), p.body))
  {
    ManageOutcome(reg, items, content, updates);
    UpdateThenParse(reg, items, content, hu);
  }

  /** Every value of a run of updates is clean. */
  predicate CleanValues(ups: seq<(string, string)>)
  {
    forall i :: 0 <= i < |ups| ==> Clean(ups[i].1)
  }

  lemma CleanPair(k1: string, v1: string, k2: string, v2: string)
    requires Clean(v1) && Clean(v2)
    ensures CleanValues([(k1, v1)]) && CleanValues([(k1, v1), (k2, v2)])
  {
  }

  /** One translated update, and two with different header keys. */
  lemma HeaderUpdatesOne(k1: string, v1: string)
    ensures HeaderUpdates([(k1, v1)]) == [(HeaderKey(k1), v1)]
  {
    assert [(k1, v1)][..0] == [];
  }

  lemma HeaderUpdatesTwo(k1: string, v1: string, k2: string, v2: string)
    requires HeaderKey(k1) != HeaderKey(k2)
    ensures HeaderUpdates([(k1, v1), (k2, v2)]) == [(HeaderKey(k1), v1), (HeaderKey(k2), v2)]
  {
    assert [(k1, v1), (k2, v2)][..1] == [(k1, v1)];
    HeaderUpdatesOne(k1, v1);
    var d := [(HeaderKey(k1), v1)];
    assert Put(d, HeaderKey(k2), v2) == [d[0]] + Put([], HeaderKey(k2), v2);
  }

  /** `update_status_content` of TASKPRD: the Status update alone. */
  function TaskPrdStatusContent(reg: Registry, items: seq<HeaderItem>, content: string, status: string): string
  {
    ManageHeaderMetadata(reg, items, content, [("Status", status)])
  }

  /**
   * A TASKPRD status update reads back as the STATUS update of the parsed
   * headers on the managed path, and writes `Status: <status>` as the second
   * line on the legacy path.
   */
  lemma TaskPrdStatusWritten(reg: Registry, items: seq<HeaderItem>, content: string, status: string)
    requires WellFormed(items) && Clean(status)
    ensures Managed(reg, content) ==> Parse(reg, items, content).Success?
    ensures Managed(reg, content) ==>
      var p := Parse(reg, items, content).value;
      var app := ManagedHeadersFor(items, ExtractTypeAndId(reg, content).value.value.0);
      Parse(reg, items, TaskPrdStatusContent(reg, items, content, status))
        == Success(Parsed(p.headerLine, ApplyUpdate(app, p.headers, StatusKey, status), p.body))
    ensures !Managed(reg, content) ==>
      var ls := LegacyLines(Split(content, '\n'), [("Status", status)]);
      TaskPrdStatusContent(reg, items, content, status) == Join(ls, '\n') && |ls| >= 2 && ls[1] == "Status" + ": " + status
  {
    if Managed(reg, content) {
      TaskPrdManaged(reg, items, content, status);
    } else {
      TaskPrdLegacy(reg, items, content, status);
    }
  }

  lemma TaskPrdManaged(reg: Registry, items: seq<HeaderItem>, content: string, status: string)
    requires WellFormed(items) && Clean(status) && Managed(reg, content)
    ensures Parse(reg, items, content).Success?
    ensures var p := Parse(reg, items, content).value;
      var app := ManagedHeadersFor(items, ExtractTypeAndId(reg, content).value.value.0);
      Parse(reg, items, TaskPrdStatusContent(reg, items, content, status))
        == Success(Parsed(p.headerLine, ApplyUpdate(app, p.headers, StatusKey, status), p.body))
  {
    StatusUpdates(status);
    CleanPair(StatusKey, status, StatusKey, status);
    ManageReadsBack(reg, items, content, [("Status", status)], [(StatusKey, status)]);
    ApplyOne(ManagedHeadersFor(items, ExtractTypeAndId(reg, content).value.value.0),
             Parse(reg, items, content).value.headers, StatusKey, status);
  }

  lemma TaskPrdLegacy(reg: Registry, items: seq<HeaderItem>, content: string, status: string)
    requires !Managed(reg, content)
    ensures var ls := LegacyLines(Split(content, '\n'), [("Status", status)]);
      TaskPrdStatusContent(reg, items, content, status) == Join(ls, '\n') && |ls| >= 2 && ls[1] == "Status" + ": " + status
  {
    LegacyOutcome(reg, items, content, [("Status", status)]);
    LegacyStatusOnly(Split(content, '\n'), status);
  }

  /** The legacy rewrite of a Status update alone. */
  lemma LegacyStatusOnly(lines: seq<string>, status: string)
    requires lines != []
    ensures var ls := LegacyLines(lines, [("Status", status)]); |ls| >= 2 && ls[1] == "Status" + ": " + status
  {
    var ups := [("Status", status)];
    assert Lookup(ups, "Status") == Some(status);
    LegacyStatus(lines, ups, status);
  }

  /** The translated Status update. */
  lemma StatusUpdates(status: string)
    ensures HeaderUpdates([("Status", status)]) == [(StatusKey, status)]
  {
    HeaderUpdatesOne("Status", status);
    assert HeaderKey("Status") == StatusKey;
  }

  /** The translated Status and Referenced-by updates. */
  lemma StatusReferencesUpdates(status: string, v: string)
    ensures HeaderUpdates([("Status", status), ("Referenced by", v)]) == [(StatusKey, status), (ReferencedByKey, v)]
  {
    assert HeaderKey("Status") == StatusKey;
    assert HeaderKey("Referenced by") == ReferencedByKey;
    HeaderUpdatesTwo("Status", status, "Referenced by", v);
  }

  /** One update applied through the loop of updates. */
  lemma ApplyOne(app: seq<HeaderItem>, m: map<string, string>, k: string, v: string)
    ensures ApplyAll(app, m, [(k, v)]) == ApplyUpdate(app, m, k, v)
  {
    assert [(k, v)][..0] == [];
  }

  /** Two updates applied through the loop of updates, in order. */
  lemma ApplyTwo(app: seq<HeaderItem>, m: map<string, string>, k1: string, v1: string, k2: string, v2: string)
    ensures ApplyAll(app, m, [(k1, v1), (k2, v2)]) == ApplyUpdate(app, ApplyUpdate(app, m, k1, v1), k2, v2)
  {
    assert [(k1, v1), (k2, v2)][..1] == [(k1, v1)];
    ApplyOne(app, m, k1, v1);
  }

  // ------------------------------------------------------ PRD status

  /** `s.replace(w, '')`: every occurrence of `w`, scanning from the left, removed. */
  function RemoveAll(s: string, w: string): (r: string)
    requires w != []
    ensures |r| <= |s| && forall c :: c in r ==> c in s
    decreases |s|
  {
    if |s| < |w| then s
    else if s[..|w|] == w then RemoveAll(s[|w|..], w)
    else [s[0]] + RemoveAll(s[1..], w)
  }

  /** Without an occurrence there is nothing to remove. */
  lemma {:induction false} RemoveAllAbsent(s: string, w: string)
    requires w != [] && !Contains(s, w)
    ensures RemoveAll(s, w) == s
    decreases |s|
  {
    if |s| >= |w| {
      assert !StartsWith(s, w);
      RemoveAllAbsent(s[1..], w);
      assert s == [s[0]] + s[1..];
    }
  }

  /** A line carrying references: it starts with `Referenced by:`, unstripped. */
  predicate IsReferenceLine(line: string)
  {
    StartsWith(line, "Referenced by:")
  }

  function ReferenceLine(): string -> bool
  {
    line => IsReferenceLine(line)
  }

  /** The references kept from a line: `line.replace('Referenced by:', '').strip()`. */
  function KeptReferences(line: string): string
  {
    Strip(RemoveAll(line, "Referenced by:"))
  }

  /**
   * The updates of PRD `update_status_content`: the Status, and the
   * references of the first reference line after the header line, if any.
   */
  function PrdStatusUpdates(content: string, status: string): (r: seq<(string, string)>)
    ensures |r| >= 1 && r[0] == ("Status", status)
  {
    var lines := Split(content, '\n');
    match First(lines, ReferenceLine(), 1)
    case None => [("Status", status)]
    case Some(k) => [("Status", status), ("Referenced by", KeptReferences(lines[k]))]
  }

  /** The loop of PRD `update_status_content` that looks for the reference line. */
  method CollectPrdUpdates(content: string, status: string) returns (updates: seq<(string, string)>)
    ensures updates == PrdStatusUpdates(content, status)
  {
    var lines := Split(content, '\n');
    updates := [("Status", status)];
    var i := 1;
    while i < |lines|
      invariant 1 <= i <= |lines| && First(lines, ReferenceLine(), 1) == First(lines, ReferenceLine(), i)
    {
      if StartsWith(lines[i], "Referenced by:") {
        updates := updates + [("Referenced by", Strip(RemoveAll(lines[i], "Referenced by:")))];
        assert ReferenceLine()(lines[i]);
        break;
      }
      i := i + 1;
    }
  }

  /** PRD `update_status_content`. */
  function PrdStatusContent(reg: Registry, items: seq<HeaderItem>, content: string, status: string): string
  {
    ManageHeaderMetadata(reg, items, content, PrdStatusUpdates(content, status))
  }

  /** The kept references of a line of the content are clean unless blank. */
  lemma KeptReferencesClean(line: string)
    requires '\n' !in line
    ensures KeptReferences(line) != [] ==> Clean(KeptReferences(line))
  {
    var u := RemoveAll(line, "Referenced by:");
    assert '\n' !in u;
    StripIsTrimmed(u);
    StripKeepsOut(u, '\n');
  }

  /** The status update followed by a references update, read back on the managed path. */
  lemma StatusAndReferencesWritten(reg: Registry, items: seq<HeaderItem>, content: string, status: string, v: string)
    requires WellFormed(items) && Clean(status) && Clean(v) && Managed(reg, content)
    ensures Parse(reg, items, content).Success?
    ensures var p := Parse(reg, items, content).value;
      var app := ManagedHeadersFor(items, ExtractTypeAndId(reg, content).value.value.0);
      Parse(reg, items, ManageHeaderMetadata(reg, items, content, [("Status", status), ("Referenced by", v)]))
        == Success(Parsed(p.headerLine, ApplyUpdate(app, ApplyUpdate(app, p.headers, StatusKey, status), ReferencedByKey, v), p.body))
  {
    StatusReferencesUpdates(status, v);
    CleanPair(StatusKey, status, ReferencedByKey, v);
    ManageReadsBack(reg, items, content, [("Status", status), ("Referenced by", v)], [(StatusKey, status), (ReferencedByKey, v)]);
    ApplyTwo(ManagedHeadersFor(items, ExtractTypeAndId(reg, content).value.value.0),
             Parse(reg, items, content).value.headers, StatusKey, status, ReferencedByKey, v);
  }

  /**
   * On the managed path a PRD status update reads back as the STATUS update
   * of the parsed headers, followed by the REFERENCED_BY update with the kept
   * references when a reference line was found and they are not blank.
   */
  lemma PrdStatusWritten(reg: Registry, items: seq<HeaderItem>, content: string, status: string)
    requires WellFormed(items) && Clean(status) && Managed(reg, content)
    ensures Parse(reg, items, content).Success?
    ensures var p := Parse(reg, items, content).value;
      var app := ManagedHeadersFor(items, ExtractTypeAndId(reg, content).value.value.0);
      var lines := Split(content, '\n');
      var k := First(lines, ReferenceLine(), 1);
      var out := Parse(reg, items, PrdStatusContent(reg, items, content, status));
      (k.None? ==> out == Success(Parsed(p.headerLine, ApplyUpdate(app, p.headers, StatusKey, status), p.body)))
      && (k.Some? && KeptReferences(lines[k.value]) != [] ==>
            out == Success(Parsed(p.headerLine,
              ApplyUpdate(app, ApplyUpdate(app, p.headers, StatusKey, status), ReferencedByKey, KeptReferences(lines[k.value])),
              p.body)))
  {
    var lines := Split(content, '\n');
    var k := First(lines, ReferenceLine(), 1);
    if k.None? {
      assert PrdStatusContent(reg, items, content, status) == TaskPrdStatusContent(reg, items, content, status);
      TaskPrdStatusWritten(reg, items, content, status);
    } else {
      var v := KeptReferences(lines[k.value]);
      assert PrdStatusContent(reg, items, content, status)
        == ManageHeaderMetadata(reg, items, content, [("Status", status), ("Referenced by", v)]);
      if v != [] {
        KeptReferencesClean(lines[k.value]);
        StatusAndReferencesWritten(reg, items, content, status, v);
      }
    }
  }

  /** The legacy rewrite of a Status and a references update. */
  lemma LegacyStatusAndReferences(lines: seq<string>, status: string, v: string)
    requires lines != []
    ensures var ls := LegacyLines(lines, [("Status", status), ("Referenced by", v)]);
      |ls| >= 3 && ls[1] == "Status" + ": " + status && ls[2] == "Referenced by" + ": " + v
  {
    var ups := [("Status", status), ("Referenced by", v)];
    assert ups[..1] == [("Status", status)];
    assert Lookup(ups, "Status") == Some(status);
    assert Lookup(ups, "Referenced by") == Some(v);
    LegacyStatus(lines, ups, status);
    LegacyReference(lines, ups, v);
  }

  /**
   * On the legacy path the Status line follows the header line and a found
   * reference line is written back, after it, with the kept references.
   */
  lemma PrdStatusLegacy(reg: Registry, items: seq<HeaderItem>, content: string, status: string)
    requires !Managed(reg, content)
    ensures var lines := Split(content, '\n');
      var ls := LegacyLines(lines, PrdStatusUpdates(content, status));
      var k := First(lines, ReferenceLine(), 1);
      PrdStatusContent(reg, items, content, status) == Join(ls, '\n')
      && |ls| >= 2 && ls[1] == "Status" + ": " + status
      && (k.Some? ==> |ls| >= 3 && ls[2] == "Referenced by" + ": " + KeptReferences(lines[k.value]))
  {
    var lines := Split(content, '\n');
    var ups := PrdStatusUpdates(content, status);
    LegacyOutcome(reg, items, content, ups);
    var k := First(lines, ReferenceLine(), 1);
    if k.None? {
      assert ups == [("Status", status)];
      LegacyStatusOnly(lines, status);
    } else {
      LegacyStatusAndReferences(lines, status, KeptReferences(lines[k.value]));
    }
  }
}
