/** Discovery of the keys in an SSH directory: every regular file directly
    inside it that is neither a public half nor a known non-key file becomes
    one key, files reached twice through links are listed once, and the list
    is ordered by name. */
module Scan {
  import opened Common
  import opened Disk
  import opened Keys

  /** One entry of the one-level directory walk, with the path the entry
      resolves to once links are followed (the entry's own path when it
      cannot be resolved). */
  datatype WalkEntry = WalkEntry(path: Path, canonical: Path)

  predicate StartsWith(s: string, prefix: string)
  {
    |prefix| <= |s| && s[..|prefix|] == prefix
  }

  predicate EndsWith(s: string, suffix: string)
  {
    |suffix| <= |s| && s[|s| - |suffix|..] == suffix
  }

  /** `path.file_name()`: the last component. */
  function FileName(p: Path): (name: string)
    ensures '/' !in name
  {
    p[ComponentStart(p)..]
  }

  /** The fixed list of files an SSH directory holds that are not keys;
      "agent" stands for every name starting with "agent.". */
  const NonKeyFiles: seq<string> :=
    ["authorized_keys", "authorized_keys2", "known_hosts", "known_hosts.old", "config", "agent"]

  predicate MatchesPattern(pattern: string, name: string)
  {
    if pattern == "agent" then StartsWith(name, "agent.") else name == pattern
  }

  function AnyPatternMatches(patterns: seq<string>, name: string): (b: bool)
    ensures b <==> exists i :: 0 <= i < |patterns| && MatchesPattern(patterns[i], name)
  {
    if patterns == [] then false
    else if MatchesPattern(patterns[0], name) then true
    else
      assert forall i :: 1 <= i < |patterns| ==> patterns[i] == patterns[1..][i - 1];
      AnyPatternMatches(patterns[1..], name)
  }

  /** `KeyScanner::is_non_key_file`. */
  function IsNonKeyFile(name: string): (b: bool)
    ensures b <==> name in NonKeyFiles[..5] || StartsWith(name, "agent.")
  {
    assert MatchesPattern(NonKeyFiles[5], name) <==> StartsWith(name, "agent.");
    assert name in NonKeyFiles[..5] <==> exists i :: 0 <= i < 5 && MatchesPattern(NonKeyFiles[i], name);
    AnyPatternMatches(NonKeyFiles, name)
  }

  /** The non-key files are the five fixed names and every name that starts
      with "agent."; the bare name "agent" is not among them. */
  lemma NonKeyFileNames(name: string)
    ensures IsNonKeyFile(name)
        <==> name == "authorized_keys" || name == "authorized_keys2" || name == "known_hosts"
             || name == "known_hosts.old" || name == "config" || StartsWith(name, "agent.")
    ensures !IsNonKeyFile("agent")
  {
    assert MatchesPattern(NonKeyFiles[0], name) <==> name == "authorized_keys";
    assert MatchesPattern(NonKeyFiles[1], name) <==> name == "authorized_keys2";
    assert MatchesPattern(NonKeyFiles[2], name) <==> name == "known_hosts";
    assert MatchesPattern(NonKeyFiles[3], name) <==> name == "known_hosts.old";
    assert MatchesPattern(NonKeyFiles[4], name) <==> name == "config";
    assert MatchesPattern(NonKeyFiles[5], name) <==> StartsWith(name, "agent.");
    assert !StartsWith("agent", "agent.");
  }

  /** An entry the scan turns into a key: not a directory, not a public half,
      not a known non-key file. */
  predicate IsCandidate(files: Files, p: Path)
    ensures IsCandidate(files, p) <==>
              && !IsDirectory(files, p) && !EndsWith(FileName(p), ".pub")
              && FileName(p) !in NonKeyFiles[..5] && !StartsWith(FileName(p), "agent.")
  {
    !IsDirectory(files, p) && !EndsWith(FileName(p), ".pub") && !IsNonKeyFile(FileName(p))
  }

  /** The keys collected from a walk, in walk order, and the set of resolved
      paths already taken. A candidate whose resolved path was taken by an
      earlier entry is skipped. */
  function Collect(files: Files, walk: seq<WalkEntry>): (r: (seq<SshKey>, set<Path>))
    ensures |r.0| == |r.1|
  {
    if walk == [] then ([], {})
    else
      var prev := Collect(files, walk[..|walk| - 1]);
      var e := walk[|walk| - 1];
      if !IsCandidate(files, e.path) || e.canonical in prev.1 then prev
      else (prev.0 + [FromPath(files, e.path)], prev.1 + {e.canonical})
  }

  /** A non-empty sequence is its prefix followed by its last element. */
  lemma SnocSplit<T>(s: seq<T>)
    requires s != []
    ensures s == s[..|s| - 1] + [s[|s| - 1]]
  {
  }

  /** The resolved paths of the candidate entries of a walk. */
  function CandidatePaths(files: Files, walk: seq<WalkEntry>): set<Path>
  {
    set e | e in walk && IsCandidate(files, e.path) :: e.canonical
  }

  lemma CandidatePathsSnoc(files: Files, init: seq<WalkEntry>, e: WalkEntry)
    ensures CandidatePaths(files, init + [e])
         == CandidatePaths(files, init) + (if IsCandidate(files, e.path) then {e.canonical} else {})
  {
    var walk := init + [e];
    forall c | c in CandidatePaths(files, walk)
      ensures c in CandidatePaths(files, init) + (if IsCandidate(files, e.path) then {e.canonical} else {})
    {
      var x :| x in walk && IsCandidate(files, x.path) && x.canonical == c;
      if x != e {
        assert x in init;
      }
    }
    forall c | c in CandidatePaths(files, init) ensures c in CandidatePaths(files, walk) {
      var x :| x in init && IsCandidate(files, x.path) && x.canonical == c;
      assert x in walk;
    }
  }

  /** The resolved paths taken are exactly those of the candidate entries, so
      the scan yields one key per distinct candidate file. */
  lemma {:induction false} CollectTakesEveryCandidate(files: Files, walk: seq<WalkEntry>)
    ensures Collect(files, walk).1 == CandidatePaths(files, walk)
  {
    if walk != [] {
      var init := walk[..|walk| - 1];
      var e := walk[|walk| - 1];
      assert Collect(files, init).1 == CandidatePaths(files, init) by {
        CollectTakesEveryCandidate(files, init);
      }
      assert CandidatePaths(files, walk)
          == CandidatePaths(files, init) + (if IsCandidate(files, e.path) then {e.canonical} else {}) by {
        SnocSplit(walk);
        CandidatePathsSnoc(files, init, e);
      }
      var prev := Collect(files, init);
      if IsCandidate(files, e.path) && e.canonical !in prev.1 {
        assert Collect(files, walk).1 == prev.1 + {e.canonical};
      } else {
        assert Collect(files, walk).1 == prev.1;
      }
    }
  }

  /** Every collected key was read from a candidate entry of the walk. */
  lemma {:induction false} CollectKeysFromCandidates(files: Files, walk: seq<WalkEntry>, k: SshKey)
    requires k in Collect(files, walk).0
    ensures exists e :: e in walk && IsCandidate(files, e.path) && k == FromPath(files, e.path)
  {
    var init := walk[..|walk| - 1];
    var e := walk[|walk| - 1];
    if k in Collect(files, init).0 {
      CollectKeysFromCandidates(files, init, k);
      var e' :| e' in init && IsCandidate(files, e'.path) && k == FromPath(files, e'.path);
      assert e' in walk;
    } else {
      assert e in walk;
    }
  }

  /** Entry `i` of the walk is a candidate and no earlier candidate resolves
      to the same path: it is the entry the scan turns into that path's key. */
  predicate FirstOfItsPath(files: Files, walk: seq<WalkEntry>, i: nat)
  {
    && i < |walk| && IsCandidate(files, walk[i].path)
    && forall j :: 0 <= j < i && IsCandidate(files, walk[j].path) ==> walk[j].canonical != walk[i].canonical
  }

  /** The positions, in walk order, of the entries that are the first
      candidate of their resolved path. */
  function FirstsOfPaths(files: Files, walk: seq<WalkEntry>): seq<nat>
  {
    if walk == [] then []
    else
      FirstsOfPaths(files, walk[..|walk| - 1])
      + (if FirstOfItsPath(files, walk, |walk| - 1) then [|walk| - 1] else [])
  }

  /** Appending an entry does not change which earlier entries come first. */
  lemma FirstOfItsPathPrefix(files: Files, walk: seq<WalkEntry>, i: nat)
    requires walk != [] && i < |walk| - 1
    ensures FirstOfItsPath(files, walk, i) == FirstOfItsPath(files, walk[..|walk| - 1], i)
  {
    var init := walk[..|walk| - 1];
    assert forall j :: 0 <= j <= i ==> init[j] == walk[j];
  }

  /** The last entry comes first for its path exactly when it is a candidate
      whose path no earlier candidate resolves to. */
  lemma FirstOfLast(files: Files, walk: seq<WalkEntry>)
    requires walk != []
    ensures var n := |walk|;
            (FirstOfItsPath(files, walk, n - 1)
             <==> IsCandidate(files, walk[n - 1].path) && walk[n - 1].canonical !in CandidatePaths(files, walk[..n - 1]))
  {
    var n := |walk|;
    var init := walk[..n - 1];
    var e := walk[n - 1];
    if IsCandidate(files, e.path) && e.canonical in CandidatePaths(files, init) {
      var x :| x in init && IsCandidate(files, x.path) && x.canonical == e.canonical;
      var j :| 0 <= j < |init| && init[j] == x;
      assert walk[j] == x;
    }
    if IsCandidate(files, e.path) && !FirstOfItsPath(files, walk, n - 1) {
      var j :| 0 <= j < n - 1 && IsCandidate(files, walk[j].path) && walk[j].canonical == e.canonical;
      assert walk[j] in init;
    }
  }

  /** `Collect` adds a key for the last entry exactly when that entry comes
      first for its resolved path. */
  lemma CollectStep(files: Files, walk: seq<WalkEntry>)
    requires walk != []
    ensures var n := |walk|;
            Collect(files, walk).0
              == Collect(files, walk[..n - 1]).0
                 + (if FirstOfItsPath(files, walk, n - 1) then [FromPath(files, walk[n - 1].path)] else [])
  {
    CollectTakesEveryCandidate(files, walk[..|walk| - 1]);
    FirstOfLast(files, walk);
  }

  /** The positions listed are increasing entries of the walk, each first
      for its resolved path. */
  lemma {:induction false} FirstsOfPathsAreFirsts(files: Files, walk: seq<WalkEntry>)
    ensures forall t :: 0 <= t < |FirstsOfPaths(files, walk)| ==>
              FirstOfItsPath(files, walk, FirstsOfPaths(files, walk)[t])
    ensures forall t, u :: 0 <= t < u < |FirstsOfPaths(files, walk)| ==>
              FirstsOfPaths(files, walk)[t] < FirstsOfPaths(files, walk)[u]
  {
    if walk != [] {
      var n := |walk|;
      var init := walk[..n - 1];
      FirstsOfPathsAreFirsts(files, init);
      var idx0 := FirstsOfPaths(files, init);
      forall t | 0 <= t < |idx0|
        ensures FirstOfItsPath(files, walk, idx0[t])
      {
        FirstOfItsPathPrefix(files, walk, idx0[t]);
      }
    }
  }

  /** Every entry that comes first for its resolved path is listed. */
  lemma {:induction false} FirstsOfPathsComplete(files: Files, walk: seq<WalkEntry>, i: nat)
    requires FirstOfItsPath(files, walk, i)
    ensures i in FirstsOfPaths(files, walk)
  {
    var n := |walk|;
    if i < n - 1 {
      FirstOfItsPathPrefix(files, walk, i);
      FirstsOfPathsComplete(files, walk[..n - 1], i);
    }
  }

  /** Every position listed is below `n`. */
  predicate Below(idx: seq<nat>, n: int)
  {
    forall t :: 0 <= t < |idx| ==> idx[t] < n
  }

  /** The keys read from the entries at the given positions, in order. */
  function KeysAt(files: Files, walk: seq<WalkEntry>, idx: seq<nat>): (keys: seq<SshKey>)
    requires Below(idx, |walk|)
    ensures |keys| == |idx|
  {
    if idx == [] then []
    else KeysAt(files, walk, idx[..|idx| - 1]) + [FromPath(files, walk[idx[|idx| - 1]].path)]
  }

  /** Each key read is the one at its position. */
  lemma {:induction false} KeysAtIndex(files: Files, walk: seq<WalkEntry>, idx: seq<nat>, t: nat)
    requires Below(idx, |walk|)
    requires t < |idx|
    ensures KeysAt(files, walk, idx)[t] == FromPath(files, walk[idx[t]].path)
  {
    if t < |idx| - 1 {
      KeysAtIndex(files, walk, idx[..|idx| - 1], t);
    }
  }

  /** One more position reads one more key, at the end. */
  lemma KeysAtSnoc(files: Files, walk: seq<WalkEntry>, idx: seq<nat>, i: nat)
    requires Below(idx, |walk|)
    requires i < |walk|
    ensures KeysAt(files, walk, idx + [i]) == KeysAt(files, walk, idx) + [FromPath(files, walk[i].path)]
  {
    assert (idx + [i])[..|idx|] == idx;
  }

  /** Reading at positions before the last entry ignores the last entry. */
  lemma {:induction false} KeysAtPrefix(files: Files, walk: seq<WalkEntry>, idx: seq<nat>)
    requires walk != []
    requires Below(idx, |walk| - 1)
    ensures KeysAt(files, walk, idx) == KeysAt(files, walk[..|walk| - 1], idx)
  {
    if idx != [] {
      KeysAtPrefix(files, walk, idx[..|idx| - 1]);
      assert walk[idx[|idx| - 1]] == walk[..|walk| - 1][idx[|idx| - 1]];
    }
  }

  lemma FirstsOfPathsStep(files: Files, walk: seq<WalkEntry>)
    requires walk != []
    ensures FirstsOfPaths(files, walk)
      == FirstsOfPaths(files, walk[..|walk| - 1]) + (if FirstOfItsPath(files, walk, |walk| - 1) then [|walk| - 1] else [])
  {
  }

  /** The listed positions are positions of the walk. */
  lemma FirstsOfPathsBelow(files: Files, walk: seq<WalkEntry>)
    ensures Below(FirstsOfPaths(files, walk), |walk|)
  {
    FirstsOfPathsAreFirsts(files, walk);
  }

  /** When the last entry is the first for its path, both sides grow by its key. */
  lemma CollectFirstsGrow(files: Files, walk: seq<WalkEntry>)
    requires walk != [] && FirstOfItsPath(files, walk, |walk| - 1)
    requires Below(FirstsOfPaths(files, walk[..|walk| - 1]), |walk| - 1)
    ensures Below(FirstsOfPaths(files, walk[..|walk| - 1]), |walk|)
    ensures Collect(files, walk).0 == Collect(files, walk[..|walk| - 1]).0 + [FromPath(files, walk[|walk| - 1].path)]
    ensures FirstsOfPaths(files, walk) == FirstsOfPaths(files, walk[..|walk| - 1]) + [|walk| - 1]
    ensures KeysAt(files, walk, FirstsOfPaths(files, walk))
         == KeysAt(files, walk, FirstsOfPaths(files, walk[..|walk| - 1])) + [FromPath(files, walk[|walk| - 1].path)]
  {
    CollectStep(files, walk);
    FirstsOfPathsStep(files, walk);
    KeysAtSnoc(files, walk, FirstsOfPaths(files, walk[..|walk| - 1]), |walk| - 1);
  }

  /** One step of `CollectFirsts`: the correspondence for a walk's prefix
      carries over to the whole walk. */
  lemma CollectFirstsStep(files: Files, walk: seq<WalkEntry>)
    requires walk != []
    requires Below(FirstsOfPaths(files, walk[..|walk| - 1]), |walk| - 1)
    requires Below(FirstsOfPaths(files, walk), |walk|)
    requires Collect(files, walk[..|walk| - 1]).0 == KeysAt(files, walk[..|walk| - 1], FirstsOfPaths(files, walk[..|walk| - 1]))
    ensures Collect(files, walk).0 == KeysAt(files, walk, FirstsOfPaths(files, walk))
  {
    var init := walk[..|walk| - 1];
    assert KeysAt(files, walk, FirstsOfPaths(files, init)) == KeysAt(files, init, FirstsOfPaths(files, init)) by {
      KeysAtPrefix(files, walk, FirstsOfPaths(files, init));
    }
    if FirstOfItsPath(files, walk, |walk| - 1) {
      CollectFirstsGrow(files, walk);
    } else {
      assert Collect(files, walk).0 == Collect(files, init).0 by {
        CollectStep(files, walk);
        assert Collect(files, init).0 + [] == Collect(files, init).0;
      }
      assert FirstsOfPaths(files, walk) == FirstsOfPaths(files, init) by {
        FirstsOfPathsStep(files, walk);
        assert FirstsOfPaths(files, init) + [] == FirstsOfPaths(files, init);
      }
    }
  }

  /** The keys `Collect` gathers are those read from the listed entries, in
      the same order. */
  lemma {:induction false} CollectFirsts(files: Files, walk: seq<WalkEntry>)
    ensures Below(FirstsOfPaths(files, walk), |walk|)
    ensures Collect(files, walk).0 == KeysAt(files, walk, FirstsOfPaths(files, walk))
  {
    FirstsOfPathsBelow(files, walk);
    if walk != [] {
      CollectFirsts(files, walk[..|walk| - 1]);
      CollectFirstsStep(files, walk);
    } else {
      assert FirstsOfPaths(files, walk) == [] && Collect(files, walk).0 == [];
    }
  }

  /** Every resolved path of a candidate has an entry that comes first for it. */
  lemma {:induction false} EveryPathHasAFirst(files: Files, walk: seq<WalkEntry>, c: Path)
    requires c in CandidatePaths(files, walk)
    ensures exists i: nat :: FirstOfItsPath(files, walk, i) && walk[i].canonical == c
  {
    var n := |walk|;
    var init := walk[..n - 1];
    var e := walk[n - 1];
    SnocSplit(walk);
    CandidatePathsSnoc(files, init, e);
    FirstOfLast(files, walk);
    if c in CandidatePaths(files, init) {
      EveryPathHasAFirst(files, init, c);
      var i: nat :| FirstOfItsPath(files, init, i) && init[i].canonical == c;
      FirstOfItsPathPrefix(files, walk, i);
      assert walk[i] == init[i];
    } else {
      assert FirstOfItsPath(files, walk, n - 1);
    }
  }

  /** The i-th key gathered is read from the i-th listed entry. */
  lemma CollectKeysAreFirsts(files: Files, walk: seq<WalkEntry>)
    ensures |Collect(files, walk).0| == |FirstsOfPaths(files, walk)|
    ensures forall t :: 0 <= t < |FirstsOfPaths(files, walk)| ==>
              && FirstsOfPaths(files, walk)[t] < |walk|
              && FirstOfItsPath(files, walk, FirstsOfPaths(files, walk)[t])
              && Collect(files, walk).0[t] == FromPath(files, walk[FirstsOfPaths(files, walk)[t]].path)
  {
    var idx := FirstsOfPaths(files, walk);
    CollectFirsts(files, walk);
    FirstsOfPathsAreFirsts(files, walk);
    forall t | 0 <= t < |idx|
      ensures Collect(files, walk).0[t] == FromPath(files, walk[idx[t]].path)
    {
      KeysAtIndex(files, walk, idx, t);
    }
  }

  /** No two listed entries share a resolved path. */
  lemma FirstsOfPathsDistinct(files: Files, walk: seq<WalkEntry>)
    ensures Below(FirstsOfPaths(files, walk), |walk|)
    ensures forall t, u :: 0 <= t < u < |FirstsOfPaths(files, walk)| ==>
              walk[FirstsOfPaths(files, walk)[t]].canonical != walk[FirstsOfPaths(files, walk)[u]].canonical
  {
    var idx := FirstsOfPaths(files, walk);
    FirstsOfPathsAreFirsts(files, walk);
    FirstsOfPathsBelow(files, walk);
    forall t, u | 0 <= t < u < |idx|
      ensures walk[idx[t]].canonical != walk[idx[u]].canonical
    {
      assert idx[t] < idx[u];
      assert FirstOfItsPath(files, walk, idx[u]);
      assert IsCandidate(files, walk[idx[t]].path);
    }
  }

  /** Some listed entry has resolved path `c`. */
  predicate Covered(walk: seq<WalkEntry>, idx: seq<nat>, c: Path)
    requires Below(idx, |walk|)
  {
    exists t :: 0 <= t < |idx| && walk[idx[t]].canonical == c
  }

  /** Every resolved path of a candidate is that of a listed entry. */
  lemma FirstsOfPathsCover(files: Files, walk: seq<WalkEntry>)
    ensures Below(FirstsOfPaths(files, walk), |walk|)
    ensures forall c :: c in CandidatePaths(files, walk) ==> Covered(walk, FirstsOfPaths(files, walk), c)
  {
    var idx := FirstsOfPaths(files, walk);
    FirstsOfPathsBelow(files, walk);
    forall c | c in CandidatePaths(files, walk)
      ensures exists t :: 0 <= t < |FirstsOfPaths(files, walk)| && walk[FirstsOfPaths(files, walk)[t]].canonical == c
    {
      EveryPathHasAFirst(files, walk, c);
      var i: nat :| FirstOfItsPath(files, walk, i) && walk[i].canonical == c;
      FirstsOfPathsComplete(files, walk, i);
      var t :| 0 <= t < |idx| && idx[t] == i;
      assert walk[idx[t]].canonical == c;
    }
  }

  /** `KeyScanner::scan` never turns one resolved path into two keys: the
      keys collected come from candidates whose resolved paths are pairwise
      distinct, each the first candidate of its path in the walk, and every
      resolved path of a candidate gives exactly one key. */
  lemma CollectOnePerPath(files: Files, walk: seq<WalkEntry>)
    ensures Below(FirstsOfPaths(files, walk), |walk|)
    ensures |Collect(files, walk).0| == |FirstsOfPaths(files, walk)|
    ensures forall t :: 0 <= t < |FirstsOfPaths(files, walk)| ==>
              && FirstsOfPaths(files, walk)[t] < |walk|
              && FirstOfItsPath(files, walk, FirstsOfPaths(files, walk)[t])
              && Collect(files, walk).0[t] == FromPath(files, walk[FirstsOfPaths(files, walk)[t]].path)
    ensures forall t, u :: 0 <= t < u < |FirstsOfPaths(files, walk)| ==>
              walk[FirstsOfPaths(files, walk)[t]].canonical != walk[FirstsOfPaths(files, walk)[u]].canonical
    ensures forall c :: c in CandidatePaths(files, walk) ==> Covered(walk, FirstsOfPaths(files, walk), c)
  {
    CollectKeysAreFirsts(files, walk);
    FirstsOfPathsDistinct(files, walk);
    FirstsOfPathsCover(files, walk);
  }

  /** Lexicographic order of strings by character, a proper prefix first
      (`String::cmp`). */
  predicate LexLeq(a: string, b: string)
  {
    if a == [] then true
    else if b == [] then false
    else if a[0] != b[0] then a[0] < b[0]
    else LexLeq(a[1..], b[1..])
  }

  predicate LexLess(a: string, b: string)
  {
    LexLeq(a, b) && a != b
  }

  lemma {:induction false} LexLeqTotal(a: string, b: string)
    ensures LexLeq(a, b) || LexLeq(b, a)
  {
    if a != [] && b != [] && a[0] == b[0] {
      LexLeqTotal(a[1..], b[1..]);
    }
  }

  lemma {:induction false} LexLeqAntisymmetric(a: string, b: string)
    requires LexLeq(a, b) && LexLeq(b, a)
    ensures a == b
  {
    if a != [] && b != [] {
      LexLeqAntisymmetric(a[1..], b[1..]);
      assert a == [a[0]] + a[1..] && b == [b[0]] + b[1..];
    }
  }

  lemma {:induction false} LexLeqTransitive(a: string, b: string, c: string)
    requires LexLeq(a, b) && LexLeq(b, c)
    ensures LexLeq(a, c)
  {
    if a != [] && b != [] && c != [] && a[0] == b[0] && b[0] == c[0] {
      LexLeqTransitive(a[1..], b[1..], c[1..]);
    }
  }

  /** Ordered by name, every pair of positions. */
  predicate SortedByName(s: seq<SshKey>)
  {
    forall i, j :: 0 <= i < j < |s| ==> LexLeq(s[i].name, s[j].name)
  }

  /** Inserts `k` after every key whose name is not greater. */
  function Insert(k: SshKey, s: seq<SshKey>): seq<SshKey>
  {
    if s == [] then [k]
    else if LexLess(k.name, s[0].name) then [k] + s
    else [s[0]] + Insert(k, s[1..])
  }

  /** `keys.sort_by(|a, b| a.name.cmp(&b.name))`, a stable sort. */
  function SortByName(s: seq<SshKey>): seq<SshKey>
  {
    if s == [] then [] else Insert(s[|s| - 1], SortByName(s[..|s| - 1]))
  }

  /** The keys of `s` named `n`, in order. */
  function Named(s: seq<SshKey>, n: string): (r: seq<SshKey>)
    ensures forall i :: 0 <= i < |r| ==> r[i].name == n
  {
    if s == [] then []
    else (if s[0].name == n then [s[0]] else []) + Named(s[1..], n)
  }

  /** Inserting adds exactly that key. */
  lemma {:induction false} InsertPermutes(k: SshKey, s: seq<SshKey>)
    ensures multiset(Insert(k, s)) == multiset(s) + multiset{k}
  {
    if s == [] {
    } else if LexLess(k.name, s[0].name) {
      assert multiset([k] + s) == multiset{k} + multiset(s);
    } else {
      var t := Insert(k, s[1..]);
      InsertPermutes(k, s[1..]);
      assert Insert(k, s) == [s[0]] + t;
      assert multiset([s[0]] + t) == multiset{s[0]} + multiset(t);
      assert s == [s[0]] + s[1..];
      assert multiset(s) == multiset{s[0]} + multiset(s[1..]);
    }
  }

  /** Every key of an insertion is the inserted key or one of the list. */
  lemma InsertElement(k: SshKey, s: seq<SshKey>, j: nat)
    requires j < |Insert(k, s)|
    ensures Insert(k, s)[j] == k || Insert(k, s)[j] in s
  {
    InsertPermutes(k, s);
    assert Insert(k, s)[j] in multiset(Insert(k, s));
  }

  /** Inserting into a list ordered by name keeps it ordered. */
  lemma {:induction false} InsertSorted(k: SshKey, s: seq<SshKey>)
    requires SortedByName(s)
    ensures SortedByName(Insert(k, s))
  {
    if s == [] {
    } else if LexLess(k.name, s[0].name) {
      var r := [k] + s;
      forall i, j | 0 <= i < j < |r| ensures LexLeq(r[i].name, r[j].name) {
        if i == 0 && j > 1 {
          LexLeqTransitive(k.name, s[0].name, s[j - 1].name);
        }
      }
    } else {
      LexLeqTotal(k.name, s[0].name);
      InsertSorted(k, s[1..]);
      var t := Insert(k, s[1..]);
      var r := [s[0]] + t;
      forall i, j | 0 <= i < j < |r| ensures LexLeq(r[i].name, r[j].name) {
        if i == 0 {
          InsertElement(k, s[1..], j - 1);
        }
      }
    }
  }

  /** The sort orders by name and keeps every key, duplicates included. */
  lemma {:induction false} SortByNameSortsAndPermutes(s: seq<SshKey>)
    ensures SortedByName(SortByName(s))
    ensures multiset(SortByName(s)) == multiset(s)
  {
    if s != [] {
      var init := s[..|s| - 1];
      SortByNameSortsAndPermutes(init);
      InsertSorted(s[|s| - 1], SortByName(init));
      InsertPermutes(s[|s| - 1], SortByName(init));
      assert s == init + [s[|s| - 1]];
    }
  }

  lemma {:induction false} NamedOfConcat(a: seq<SshKey>, b: seq<SshKey>, n: string)
    ensures Named(a + b, n) == Named(a, n) + Named(b, n)
  {
    if a != [] {
      assert (a + b)[1..] == a[1..] + b;
      NamedOfConcat(a[1..], b, n);
    } else {
      assert a + b == b;
    }
  }

  lemma {:induction false} NamedEmpty(s: seq<SshKey>, n: string)
    requires forall i :: 0 <= i < |s| ==> s[i].name != n
    ensures Named(s, n) == []
  {
    if s != [] {
      NamedEmpty(s[1..], n);
    }
  }

  lemma NamedSnoc(s: seq<SshKey>, k: SshKey, n: string)
    ensures Named(s + [k], n) == Named(s, n) + (if k.name == n then [k] else [])
  {
    NamedOfConcat(s, [k], n);
    assert Named([k], n) == (if k.name == n then [k] else []) + Named([], n);
  }

  /** In a list ordered by name, no key is named like a name smaller than
      the first. */
  lemma NoneNamedBelowFirst(s: seq<SshKey>, n: string)
    requires SortedByName(s) && s != [] && LexLess(n, s[0].name)
    ensures Named(s, n) == []
  {
    forall i | 0 <= i < |s| ensures s[i].name != n {
      if i > 0 && s[i].name == n {
        LexLeqAntisymmetric(n, s[0].name);
      }
    }
    NamedEmpty(s, n);
  }

  /** Inserting a key puts it after every key of the same name. */
  lemma {:induction false} NamedOfInsert(k: SshKey, s: seq<SshKey>, n: string)
    requires SortedByName(s)
    ensures Named(Insert(k, s), n) == if k.name == n then Named(s, n) + [k] else Named(s, n)
  {
    if s == [] {
      assert Named([k], n) == (if k.name == n then [k] else []) + Named([], n);
    } else if LexLess(k.name, s[0].name) {
      if k.name == n {
        NoneNamedBelowFirst(s, n);
      }
      assert Named([k] + s, n) == (if k.name == n then [k] else []) + Named(s, n) by {
        assert ([k] + s)[1..] == s;
      }
    } else {
      var t := Insert(k, s[1..]);
      NamedOfInsert(k, s[1..], n);
      assert Insert(k, s) == [s[0]] + t;
      assert ([s[0]] + t)[1..] == t;
      assert Named([s[0]] + t, n) == (if s[0].name == n then [s[0]] else []) + Named(t, n);
    }
  }

  /** The sort is stable: the keys sharing a name keep their relative order. */
  lemma {:induction false} SortByNameIsStable(s: seq<SshKey>, n: string)
    ensures Named(SortByName(s), n) == Named(s, n)
  {
    if s != [] {
      var init := s[..|s| - 1];
      var k := s[|s| - 1];
      var sorted := SortByName(init);
      assert SortByName(s) == Insert(k, sorted);
      assert Named(sorted, n) == Named(init, n) by {
        SortByNameIsStable(init, n);
      }
      assert Named(Insert(k, sorted), n) == Named(sorted, n) + (if k.name == n then [k] else []) by {
        SortByNameSortsAndPermutes(init);
        NamedOfInsert(k, sorted, n);
      }
      assert Named(s, n) == Named(init, n) + (if k.name == n then [k] else []) by {
        assert s == init + [k];
        NamedSnoc(init, k, n);
      }
    }
  }

  /** `keys.into_iter().find(|k| k.name == name)`. */
  function FirstNamed(keys: seq<SshKey>, name: string): (r: Option<SshKey>)
    ensures r.Some? ==> r.value in keys && r.value.name == name
    ensures r.None? <==> forall k :: k in keys ==> k.name != name
  {
    if keys == [] then None
    else if keys[0].name == name then Some(keys[0])
    else FirstNamed(keys[1..], name)
  }

  /** The first key with a name is the head of the keys with that name. */
  lemma {:induction false} FirstNamedIsHeadOfNamed(keys: seq<SshKey>, name: string)
    ensures FirstNamed(keys, name) == if Named(keys, name) == [] then None else Some(Named(keys, name)[0])
  {
    if keys != [] && keys[0].name != name {
      FirstNamedIsHeadOfNamed(keys[1..], name);
    }
  }

  /** What `scan` returns: nothing when the directory does not exist,
      otherwise the collected keys ordered by name. */
  function ScanResult(files: Files, sshDir: Path, walk: seq<WalkEntry>): (r: seq<SshKey>)
    ensures sshDir !in files ==> r == []
    ensures SortedByName(r)
  {
    if sshDir !in files then []
    else
      SortByNameSortsAndPermutes(Collect(files, walk).0);
      SortByName(Collect(files, walk).0)
  }

  /** Looking a name up in the sorted list finds the key that the walk met
      first among those with that name. */
  lemma FindFollowsWalkOrder(files: Files, sshDir: Path, walk: seq<WalkEntry>, name: string)
    requires sshDir in files
    ensures FirstNamed(ScanResult(files, sshDir, walk), name) == FirstNamed(Collect(files, walk).0, name)
  {
    var keys := Collect(files, walk).0;
    SortByNameIsStable(keys, name);
    FirstNamedIsHeadOfNamed(keys, name);
    FirstNamedIsHeadOfNamed(SortByName(keys), name);
  }

  /** The scan lists keys read from candidate entries only, ordered by name,
      one per distinct resolved candidate path: it is a rearrangement of the
      keys `Collect` gathers (described by `CollectOnePerPath`). */
  lemma ScanResultProperties(files: Files, sshDir: Path, walk: seq<WalkEntry>)
    requires sshDir in files
    ensures SortedByName(ScanResult(files, sshDir, walk))
    ensures multiset(ScanResult(files, sshDir, walk)) == multiset(Collect(files, walk).0)
    ensures |ScanResult(files, sshDir, walk)| == |CandidatePaths(files, walk)|
    ensures forall k :: k in ScanResult(files, sshDir, walk) ==>
              exists e :: e in walk && IsCandidate(files, e.path) && k == FromPath(files, e.path)
  {
    var keys := Collect(files, walk).0;
    SortByNameSortsAndPermutes(keys);
    CollectTakesEveryCandidate(files, walk);
    assert |multiset(SortByName(keys))| == |multiset(keys)|;
    forall k | k in ScanResult(files, sshDir, walk)
      ensures exists e :: e in walk && IsCandidate(files, e.path) && k == FromPath(files, e.path)
    {
      assert k in multiset(SortByName(keys));
      CollectKeysFromCandidates(files, walk, k);
    }
  }

  /** `KeyScanner`: scans one SSH directory. */
  class KeyScanner {
    const sshDir: Path

    constructor (sshDir: Path)
      ensures this.sshDir == sshDir
    {
      this.sshDir := sshDir;
    }

    /** `KeyScanner::scan` over the given walk of the directory. */
    method Scan(fs: FileSystem, walk: seq<WalkEntry>) returns (r: Result<seq<SshKey>>)
      ensures r == Ok(ScanResult(fs.files, sshDir, walk))
    {
      if !fs.Exists(sshDir) {
        return Ok([]);
      }
      var keys: seq<SshKey> := [];
      var processed: set<Path> := {};
      var i := 0;
      while i < |walk|
        invariant 0 <= i <= |walk|
        invariant (keys, processed) == Collect(fs.files, walk[..i])
      {
        var entry := walk[i];
        var fileName := FileName(entry.path);
        if IsDirectory(fs.files, entry.path) {
        } else if EndsWith(fileName, ".pub") {
        } else if IsNonKeyFile(fileName) {
        } else if entry.canonical in processed {
        } else {
          processed := processed + {entry.canonical};
          keys := keys + [FromPath(fs.files, entry.path)];
        }
        assert walk[..i + 1][..i] == walk[..i];
        i := i + 1;
      }
      assert walk[..|walk|] == walk;
      return Ok(SortByName(keys));
    }

    /** `KeyScanner::find_key_by_name`. */
    method FindKeyByName(fs: FileSystem, walk: seq<WalkEntry>, name: string) returns (r: Result<Option<SshKey>>)
      ensures r == Ok(FirstNamed(ScanResult(fs.files, sshDir, walk), name))
    {
      var keys := Scan(fs, walk);
      return Ok(FirstNamed(keys.value, name));
    }

    /** `KeyScanner::get_key_count`. */
    method GetKeyCount(fs: FileSystem, walk: seq<WalkEntry>) returns (r: Result<nat>)
      ensures r == Ok(|ScanResult(fs.files, sshDir, walk)|)
    {
      var keys := Scan(fs, walk);
      return Ok(|keys.value|);
    }
  }
}
