/**
 * The Python-installation and Jupyter-session logic of the Jupyter
 * commands: classifying an interpreter by its path, merging custom
 * environments, ordering by priority, the selection guard, the session
 * identifier, and the PATH handed to a spawned server. Interpreter
 * discovery, version probing, the config store and process spawning are
 * parameters.
 */
module JupyterActions {
  import opened Wrappers
  import opened Text
  import opened Seqs
  import opened States

  /** Containment is transitive: what occurs in a part of a string occurs in the string. */
  lemma ContainsTrans(s: string, t: string, u: string)
    requires Contains(s, t) && Contains(t, u)
    ensures Contains(s, u)
  {
    var i :| 0 <= i <= |s| - |t| && OccursAt(s, t, i);
    var j :| 0 <= j <= |t| - |u| && OccursAt(t, u, j);
    assert forall k :: 0 <= k < |u| ==> s[i + j + k] == t[j + k] == u[k];
    assert OccursAt(s, u, i + j);
  }

  /** `determine_python_source`: the source and priority (lower is better) read off the lower-cased path. */
  function DeterminePythonSource(path: string): (r: (string, U8))
    ensures 1 <= r.1 <= 5
  {
    var p := Lower(path);
    if Contains(p, "anaconda") || Contains(p, "miniconda") || Contains(p, "conda") then ("anaconda", 1)
    else if Contains(p, "homebrew") || Contains(p, "/opt/homebrew") || Contains(p, "/usr/local") then ("homebrew", 2)
    else if Contains(p, "python.framework") || Contains(p, "programs/python") then ("python.org", 3)
    else if Contains(p, "/usr/bin") || Contains(p, "/bin") || Contains(p, "system32") then ("system", 4)
    else ("other", 5)
  }

  /**
   * The tiers reduce to one test each, since "anaconda" and "miniconda"
   * contain "conda", "/opt/homebrew" contains "homebrew" and "/usr/bin"
   * contains "/bin"; each priority comes with its own source name.
   */
  lemma PythonSourceTiers(path: string)
    ensures var p := Lower(path); var r := DeterminePythonSource(path);
      (r.1 == 1 <==> Contains(p, "conda")) &&
      (r.1 == 2 <==> !Contains(p, "conda") && (Contains(p, "homebrew") || Contains(p, "/usr/local"))) &&
      (r.1 == 3 <==> (!Contains(p, "conda") && !Contains(p, "homebrew") && !Contains(p, "/usr/local") &&
                      (Contains(p, "python.framework") || Contains(p, "programs/python")))) &&
      (r.1 == 4 <==> (!Contains(p, "conda") && !Contains(p, "homebrew") && !Contains(p, "/usr/local") &&
                      !Contains(p, "python.framework") && !Contains(p, "programs/python") &&
                      (Contains(p, "/bin") || Contains(p, "system32"))))
    ensures DeterminePythonSource(path) in {("anaconda", 1), ("homebrew", 2), ("python.org", 3), ("system", 4), ("other", 5)}
  {
    var p := Lower(path);
    assert OccursAt("anaconda", "conda", 3);
    assert OccursAt("miniconda", "conda", 4);
    assert OccursAt("/opt/homebrew", "homebrew", 5);
    assert OccursAt("/usr/bin", "/bin", 4);
    if Contains(p, "anaconda") { ContainsTrans(p, "anaconda", "conda"); }
    if Contains(p, "miniconda") { ContainsTrans(p, "miniconda", "conda"); }
    if Contains(p, "/opt/homebrew") { ContainsTrans(p, "/opt/homebrew", "homebrew"); }
    if Contains(p, "/usr/bin") { ContainsTrans(p, "/usr/bin", "/bin"); }
  }

  /** The test is on the lower-cased path: an "Anaconda3" directory counts as conda. */
  lemma PythonSourceIgnoresCase()
    ensures DeterminePythonSource("/Users/me/Anaconda3/bin/python") == ("anaconda", 1)
  {
    var p := Lower("/Users/me/Anaconda3/bin/python");
    assert p[13] == 'c' && p[14] == 'o' && p[15] == 'n' && p[16] == 'd' && p[17] == 'a';
    assert p[13..18] == "conda";
    assert OccursAt(p, "conda", 13);
  }

  function Priority(p: PythonInstallation): U8 { p.priority }

  predicate SortedByPriority(s: seq<PythonInstallation>)
  {
    forall i, j :: 0 <= i < j < |s| ==> s[i].priority <= s[j].priority
  }

  /** Inserts `x` after every element whose priority is at most its own. */
  function InsertByPriority(s: seq<PythonInstallation>, x: PythonInstallation): (r: seq<PythonInstallation>)
    ensures multiset(r) == multiset(s) + multiset{x}
    ensures |r| == |s| + 1
    decreases |s|
  {
    if s == [] then [x]
    else if s[0].priority > x.priority then [x] + s
    else
      assert s == [s[0]] + s[1..];
      [s[0]] + InsertByPriority(s[1..], x)
  }

  /** `sort_by_key(|p| p.priority)`: a stable sort, modelled as insertion of each element in turn. */
  function SortByPriority(s: seq<PythonInstallation>): (r: seq<PythonInstallation>)
    decreases |s|
  {
    if s == [] then []
    else InsertByPriority(SortByPriority(s[..|s| - 1]), s[|s| - 1])
  }

  lemma {:induction false} InsertSorted(s: seq<PythonInstallation>, x: PythonInstallation)
    requires SortedByPriority(s)
    ensures SortedByPriority(InsertByPriority(s, x))
    ensures InsertByPriority(s, x) != [] && InsertByPriority(s, x)[0].priority == (if s == [] || x.priority < s[0].priority then x.priority else s[0].priority)
    decreases |s|
  {
    InsertHead(s, x);
    if s != [] && s[0].priority <= x.priority {
      InsertSorted(s[1..], x);
      var rest := InsertByPriority(s[1..], x);
      assert InsertByPriority(s, x) == [s[0]] + rest;
      assert forall j :: 0 <= j < |rest| ==> s[0].priority <= rest[0].priority <= rest[j].priority;
    }
  }

  /** The first element after an insertion: `x` when it goes first, else the old first element. */
  lemma InsertHead(s: seq<PythonInstallation>, x: PythonInstallation)
    ensures InsertByPriority(s, x) != [] &&
      InsertByPriority(s, x)[0] == (if s == [] || x.priority < s[0].priority then x else s[0])
  {
  }

  /** The installations with priority `k`. */
  function PriorityIs(k: U8): PythonInstallation -> bool
  {
    (p: PythonInstallation) => p.priority == k
  }

  lemma {:induction false} InsertStable(s: seq<PythonInstallation>, x: PythonInstallation, k: U8)
    requires SortedByPriority(s)
    ensures Filter(InsertByPriority(s, x), PriorityIs(k)) == Filter(s, PriorityIs(k)) + (if x.priority == k then [x] else [])
    decreases |s|
  {
    if s == [] || s[0].priority > x.priority {
      InsertFirstStable(s, x, k);
    } else {
      InsertStable(s[1..], x, k);
      InsertLaterStable(s, x, k);
    }
  }

  /** When `x` goes first, its priority is below every other, so nothing of the same priority precedes or follows it. */
  lemma InsertFirstStable(s: seq<PythonInstallation>, x: PythonInstallation, k: U8)
    requires SortedByPriority(s) && (s == [] || s[0].priority > x.priority)
    ensures Filter(InsertByPriority(s, x), PriorityIs(k)) == Filter(s, PriorityIs(k)) + (if x.priority == k then [x] else [])
  {
    var r := InsertByPriority(s, x);
    assert r == [x] + s;
    assert r[0] == x && r[1..] == s;
    if x.priority == k {
      forall j | 0 <= j < |s|
        ensures !PriorityIs(k)(s[j])
      {
        assert s[0].priority <= s[j].priority;
      }
      FilterNone(s, PriorityIs(k));
    }
  }

  /** When `x` goes after the head, the head is kept in front of the insertion into the rest. */
  lemma InsertLaterStable(s: seq<PythonInstallation>, x: PythonInstallation, k: U8)
    requires s != [] && s[0].priority <= x.priority
    requires Filter(InsertByPriority(s[1..], x), PriorityIs(k)) ==
      Filter(s[1..], PriorityIs(k)) + (if x.priority == k then [x] else [])
    ensures Filter(InsertByPriority(s, x), PriorityIs(k)) == Filter(s, PriorityIs(k)) + (if x.priority == k then [x] else [])
  {
    var rest, p := s[1..], PriorityIs(k);
    var added := if x.priority == k then [x] else [];
    var ins := InsertByPriority(rest, x);
    var r := InsertByPriority(s, x);
    assert r == [s[0]] + ins;
    assert r[0] == s[0] && r[1..] == ins;
    if p(s[0]) {
      ConcatAssoc([s[0]], Filter(rest, p), added);
    }
  }

  /** The sort orders by priority. */
  lemma {:induction false} SortByPrioritySorted(s: seq<PythonInstallation>)
    ensures SortedByPriority(SortByPriority(s))
    decreases |s|
  {
    if s != [] {
      SortByPrioritySorted(s[..|s| - 1]);
      InsertSorted(SortByPriority(s[..|s| - 1]), s[|s| - 1]);
    }
  }

  /** The sort loses and invents nothing. */
  lemma {:induction false} SortByPriorityPermutation(s: seq<PythonInstallation>)
    ensures multiset(SortByPriority(s)) == multiset(s)
    decreases |s|
  {
    if s != [] {
      var front := s[..|s| - 1];
      SortByPriorityPermutation(front);
      assert s == front + [s[|s| - 1]];
    }
  }

  /** The sort keeps installations of equal priority in input order. */
  lemma {:induction false} SortByPriorityStable(s: seq<PythonInstallation>, k: U8)
    ensures Filter(SortByPriority(s), PriorityIs(k)) == Filter(s, PriorityIs(k))
    decreases |s|
  {
    if s != [] {
      var front := s[..|s| - 1];
      SortByPriorityStable(front, k);
      SortByPrioritySorted(front);
      InsertStable(SortByPriority(front), s[|s| - 1], k);
      FilterSnoc(s, |s| - 1, PriorityIs(k));
      assert s[..|s|] == s;
    }
  }

  /** Some installation has this path. */
  predicate HasPath(s: seq<PythonInstallation>, path: string)
  {
    exists i :: 0 <= i < |s| && s[i].path == path
  }

  predicate UniquePaths(s: seq<PythonInstallation>)
  {
    forall i, j :: 0 <= i < j < |s| ==> s[i].path != s[j].path
  }

  /**
   * `load_custom_python_envs`: each stored custom environment is appended
   * unless an entry with its path is present, counting entries appended
   * earlier in the same merge.
   */
  function MergeCustom(inst: seq<PythonInstallation>, custom: seq<PythonInstallation>): (r: seq<PythonInstallation>)
    ensures |inst| <= |r| && r[..|inst|] == inst
    decreases |custom|
  {
    if custom == [] then inst
    else
      var m := MergeCustom(inst, custom[..|custom| - 1]);
      var env := custom[|custom| - 1];
      if HasPath(m, env.path) then m else m + [env]
  }

  method LoadCustomPythonEnvs(installations: seq<PythonInstallation>, stored: Option<seq<PythonInstallation>>)
    returns (r: seq<PythonInstallation>)
    ensures stored.None? ==> r == installations
    ensures stored.Some? ==> r == MergeCustom(installations, stored.value)
  {
    r := installations;
    if stored.None? {
      return;
    }
    var custom := stored.value;
    for i := 0 to |custom|
      invariant r == MergeCustom(installations, custom[..i])
    {
      assert custom[..i + 1][..i] == custom[..i];
      var env := custom[i];
      if exists j :: 0 <= j < |r| && r[j].path == env.path {
        continue;
      }
      r := r + [env];
    }
    assert custom[..|custom|] == custom;
  }

  /**
   * The merge keeps the detected list as a prefix, adds only custom
   * environments, covers every custom path, and keeps paths unique.
   */
  lemma {:induction false} MergeCustomSpec(inst: seq<PythonInstallation>, custom: seq<PythonInstallation>)
    ensures var r := MergeCustom(inst, custom);
      (forall i :: |inst| <= i < |r| ==> r[i] in custom) &&
      (forall k :: 0 <= k < |custom| ==> HasPath(r, custom[k].path)) &&
      (UniquePaths(inst) ==> UniquePaths(r))
    decreases |custom|
  {
    if custom != [] {
      var front := custom[..|custom| - 1];
      MergeCustomSpec(inst, front);
      var m := MergeCustom(inst, front);
      var r := MergeCustom(inst, custom);
      forall k | 0 <= k < |custom|
        ensures HasPath(r, custom[k].path)
      {
        if k < |front| {
          assert custom[k] == front[k];
          var i :| 0 <= i < |m| && m[i].path == front[k].path;
          assert r[i] == m[i];
        } else if !HasPath(m, custom[k].path) {
          assert r[|m|] == custom[k];
        }
      }
      assert forall i :: |inst| <= i < |m| ==> m[i] in front;
      assert forall x :: x in front ==> x in custom;
    }
  }

  /** An installation found by discovery: its path, version and classification, not custom. */
  function Discovered(path: string, version: string): (p: PythonInstallation)
    ensures p.path == path && p.version == version && !p.isCustom
    ensures (p.source, p.priority) == DeterminePythonSource(path)
  {
    var (source, priority) := DeterminePythonSource(path);
    PythonInstallation(path, version, source, priority, false)
  }

  /** The installations discovery reports, in order. */
  function DiscoveredAll(found: seq<(string, string)>): (r: seq<PythonInstallation>)
    ensures |r| == |found| && forall k :: 0 <= k < |found| ==> r[k] == Discovered(found[k].0, found[k].1)
  {
    seq(|found|, k requires 0 <= k < |found| => Discovered(found[k].0, found[k].1))
  }

  /** The discovery loop: one installation per interpreter that reported a version. */
  method CollectInstallations(found: seq<(string, string)>) returns (installations: seq<PythonInstallation>)
    ensures installations == DiscoveredAll(found)
  {
    installations := [];
    for i := 0 to |found|
      invariant |installations| == i
      invariant forall k :: 0 <= k < i ==> installations[k] == Discovered(found[k].0, found[k].1)
    {
      var (source, priority) := DeterminePythonSource(found[i].0);
      installations := installations + [PythonInstallation(found[i].0, found[i].1, source, priority, false)];
    }
  }

  /**
   * `detect_python_installations` after discovery: `found` lists the
   * interpreters that reported a version, in discovery order, and
   * `stored` the custom environments the config store yields. The merged
   * list is sorted, stored, and its first entry selected if nothing is.
   */
  method DetectPythonInstallations(js: JupyterState, found: seq<(string, string)>, stored: Option<seq<PythonInstallation>>)
    returns (r: seq<PythonInstallation>)
    modifies js
    ensures r == SortByPriority(if stored.None? then DiscoveredAll(found) else MergeCustom(DiscoveredAll(found), stored.value))
    ensures js.detectedPythons == r
    ensures js.selectedPythonPath == if old(js.selectedPythonPath).None? && r != [] then Some(r[0].path) else old(js.selectedPythonPath)
    ensures js.sessions == old(js.sessions)
  {
    var installations := CollectInstallations(found);
    installations := LoadCustomPythonEnvs(installations, stored);
    r := SortByPriority(installations);
    js.detectedPythons := r;
    if js.selectedPythonPath.None? && r != [] {
      js.selectedPythonPath := Some(r[0].path);
    }
  }

  /** An automatically selected interpreter is a detected one of the best priority. */
  lemma AutoSelectionIsBest(installations: seq<PythonInstallation>)
    requires SortByPriority(installations) != []
    ensures var r := SortByPriority(installations);
      HasPath(r, r[0].path) && forall i :: 0 <= i < |r| ==> r[0].priority <= r[i].priority
  {
    SortByPrioritySorted(installations);
  }

  /** `set_selected_python`: only a detected path can be selected. */
  method SetSelectedPython(js: JupyterState, path: string) returns (r: Result<Unit, string>)
    modifies js
    ensures HasPath(old(js.detectedPythons), path) ==> r == Ok(Unit) && js.selectedPythonPath == Some(path)
    ensures !HasPath(old(js.detectedPythons), path) ==>
      r == Err("Python path not found in detected installations: " + path) && js.selectedPythonPath == old(js.selectedPythonPath)
    ensures js.detectedPythons == old(js.detectedPythons) && js.sessions == old(js.sessions)
  {
    if !exists i :: 0 <= i < |js.detectedPythons| && js.detectedPythons[i].path == path {
      return Err("Python path not found in detected installations: " + path);
    }
    js.selectedPythonPath := Some(path);
    r := Ok(Unit);
  }

  /** A selection is valid when it names a detected installation. */
  predicate SelectionValid(detected: seq<PythonInstallation>, selected: Option<string>)
  {
    selected.Some? ==> HasPath(detected, selected.value)
  }

  /** Selecting through the guard keeps a valid selection valid, whatever the outcome. */
  lemma SetSelectedKeepsValid(detected: seq<PythonInstallation>, selected: Option<string>, path: string)
    requires SelectionValid(detected, selected)
    ensures SelectionValid(detected, if HasPath(detected, path) then Some(path) else selected)
  {
  }

  /**
   * `save_custom_python_env` on the stored list: appends and saves only
   * when the path is new; `saved` is the outcome of writing the store.
   */
  function SaveCustomPythonEnv(custom: seq<PythonInstallation>, installation: PythonInstallation, saved: Result<Unit, string>)
    : (r: (Result<Unit, string>, seq<PythonInstallation>))
    ensures HasPath(custom, installation.path) ==> r == (Ok(Unit), custom)
    ensures !HasPath(custom, installation.path) ==> r.1 == custom + [installation]
    ensures !HasPath(custom, installation.path) ==>
      r.0 == (if saved.Err? then Err("Failed to save store: " + saved.error) else Ok(Unit))
  {
    if HasPath(custom, installation.path) then (Ok(Unit), custom)
    else
      var stored := custom + [installation];
      if saved.Err? then (Err("Failed to save store: " + saved.error), stored) else (Ok(Unit), stored)
  }

  /** Saving keeps the stored paths unique. */
  lemma SaveKeepsPathsUnique(custom: seq<PythonInstallation>, installation: PythonInstallation, saved: Result<Unit, string>)
    requires UniquePaths(custom)
    ensures UniquePaths(SaveCustomPythonEnv(custom, installation, saved).1)
    ensures HasPath(SaveCustomPythonEnv(custom, installation, saved).1, installation.path)
  {
    var r := SaveCustomPythonEnv(custom, installation, saved).1;
    if !HasPath(custom, installation.path) {
      assert r[|custom|] == installation;
    }
  }

  /**
   * `add_python_env` once the picked file answered with a version: the
   * interpreter is added to the detected list if its path is new, saved
   * as a custom environment, and selected unless saving failed.
   */
  method AddPythonEnv(js: JupyterState, path: string, version: string, custom: seq<PythonInstallation>, saved: Result<Unit, string>)
    returns (r: Result<Unit, string>, stored: seq<PythonInstallation>)
    modifies js
    ensures var inst := Discovered(path, version).(isCustom := true);
      (r, stored) == SaveCustomPythonEnv(custom, inst, saved) &&
      js.detectedPythons == (if HasPath(old(js.detectedPythons), path) then old(js.detectedPythons) else old(js.detectedPythons) + [inst])
    ensures js.selectedPythonPath == if r.Ok? then Some(path) else old(js.selectedPythonPath)
    ensures js.sessions == old(js.sessions)
  {
    var (source, priority) := DeterminePythonSource(path);
    var inst := PythonInstallation(path, version, source, priority, true);
    if !exists i :: 0 <= i < |js.detectedPythons| && js.detectedPythons[i].path == path {
      js.detectedPythons := js.detectedPythons + [inst];
    }
    r, stored := SaveCustomPythonEnv(custom, inst, saved).0, SaveCustomPythonEnv(custom, inst, saved).1;
    if r.Err? {
      return;
    }
    js.selectedPythonPath := Some(path);
  }

  /** After adding, the selection (when made) names a detected installation. */
  lemma AddPythonEnvSelectsDetected(detected: seq<PythonInstallation>, inst: PythonInstallation)
    ensures SelectionValid(if HasPath(detected, inst.path) then detected else detected + [inst], Some(inst.path))
  {
    if !HasPath(detected, inst.path) {
      assert (detected + [inst])[|detected|] == inst;
    }
  }

  /** The identifier of a session: "<name>:<port>". */
  function SessionId(name: string, port: U16): string
  {
    name + ":" + NatToString(port as nat)
  }

  /** For names without ':' the identifier determines name and port. */
  lemma SessionIdInjective(n1: string, p1: U16, n2: string, p2: U16)
    requires ':' !in n1 && ':' !in n2
    requires SessionId(n1, p1) == SessionId(n2, p2)
    ensures n1 == n2 && p1 == p2
  {
    var s := SessionId(n1, p1);
    assert s[|n1|] == ':';
    assert s == n2 + ":" + NatToString(p2 as nat);
    assert n1 == s[..|n1|] == n2;
    assert NatToString(p1 as nat) == s[|n1| + 1..] == NatToString(p2 as nat);
    NatToStringInjective(p1 as nat, p2 as nat);
  }

  /**
   * `parse_output_and_create_session`: `url` is what the URL pattern finds
   * in the output line and `child` the caller's child slot. A session is
   * added only when both are present, and the child moves into it.
   */
  method ParseOutputAndCreateSession(js: JupyterState, line: string, url: Option<string>, port: U16, name: string, child: Option<ChildHandle>)
    returns (r: Result<Unit, string>, childAfter: Option<ChildHandle>)
    modifies js
    ensures url.None? ==> r == Err("no URL found in output: " + line) && childAfter == child && js.sessions == old(js.sessions)
    ensures url.Some? && child.None? ==> r == Err("Child process already taken") && childAfter.None? && js.sessions == old(js.sessions)
    ensures url.Some? && child.Some? ==> r == Ok(Unit) && childAfter.None?
    ensures url.Some? && child.Some? ==>
      js.sessions == old(js.sessions) + [JupyterSession(SessionId(name, port), url.value, port, child)]
    ensures js.detectedPythons == old(js.detectedPythons) && js.selectedPythonPath == old(js.selectedPythonPath)
  {
    childAfter := child;
    if url.None? {
      return Err("no URL found in output: " + line), childAfter;
    }
    if childAfter.None? {
      return Err("Child process already taken"), childAfter;
    }
    var taken := childAfter.value;
    childAfter := None;
    js.AddSessionWithChild(SessionId(name, port), url.value, port, taken);
    r := Ok(Unit);
  }

  /** The candidate directories without repeats, first occurrences kept (the `seen` set of the PATH builder). */
  method DedupCandidates(cands: seq<string>) returns (dedup: seq<string>)
    ensures dedup == Dedup(cands)
  {
    var seen: set<string> := {};
    dedup := [];
    for i := 0 to |cands|
      invariant dedup == Dedup(cands[..i])
      invariant forall x :: x in seen <==> x in cands[..i]
    {
      DedupSpec(cands[..i]);
      assert cands[..i + 1] == cands[..i] + [cands[i]];
      DedupSnoc(cands[..i], cands[i]);
      if cands[i] !in seen {
        seen := seen + {cands[i]};
        dedup := dedup + [cands[i]];
      }
    }
    assert cands[..|cands|] == cands;
  }

  /** The PATH value: the candidates, then the current PATH, each part left out when empty. */
  function JoinedPath(dedup: seq<string>, current: string, sep: string): string
  {
    if current == "" then Join(dedup, sep)
    else if dedup == [] then current
    else Join(dedup, sep) + sep + current
  }

  lemma {:induction false} JoinSnoc(xs: seq<string>, y: string, sep: string)
    requires xs != []
    ensures Join(xs + [y], sep) == Join(xs, sep) + sep + y
    decreases |xs|
  {
    if |xs| == 1 {
      assert (xs + [y])[1..] == [y];
    } else {
      assert (xs + [y])[1..] == xs[1..] + [y];
      JoinSnoc(xs[1..], y, sep);
    }
  }

  /** The three branches are one join: of the candidates followed by the current PATH when it is not empty. */
  lemma JoinedPathIsJoin(dedup: seq<string>, current: string, sep: string)
    ensures JoinedPath(dedup, current, sep) == Join(dedup + (if current == "" then [] else [current]), sep)
  {
    if current == "" {
      assert dedup + [] == dedup;
    } else if dedup != [] {
      JoinSnoc(dedup, current, sep);
    }
  }

  /** The tail of `setup_jupyter_env`: the PATH entry for the spawned server. */
  method BuildPath(cands: seq<string>, current: string, sep: string) returns (joined: string)
    ensures joined == Join(Dedup(cands) + (if current == "" then [] else [current]), sep)
  {
    var dedup := DedupCandidates(cands);
    joined := JoinedPath(dedup, current, sep);
    JoinedPathIsJoin(dedup, current, sep);
  }

  /** Entries free of the separator can be read back: the distinct candidates, then the current PATH. */
  lemma BuildPathEntries(cands: seq<string>, current: string, sep: char)
    requires forall k :: 0 <= k < |cands| ==> sep !in cands[k]
    requires sep !in current
    requires cands != [] || current != ""
    ensures Split(JoinedPath(Dedup(cands), current, [sep]), sep) == Dedup(cands) + (if current == "" then [] else [current])
  {
    DedupSpec(cands);
    var parts := Dedup(cands) + (if current == "" then [] else [current]);
    JoinedPathIsJoin(Dedup(cands), current, [sep]);
    if cands != [] {
      assert cands[0] in Dedup(cands);
    }
    assert parts != [];
    forall k | 0 <= k < |parts|
      ensures sep !in parts[k]
    {
      if k < |Dedup(cands)| {
        assert parts[k] in cands;
      }
    }
    SplitJoin(parts, sep);
  }
}
