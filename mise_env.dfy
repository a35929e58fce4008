/** Post-processing of `mise env --json` output: the tool's own variables,
    and the `PATH` entries mise adds in front of the process's `PATH`. The
    process's `PATH` is a parameter. */
module MiseEnv {
  import opened GoStrings
  import opened Provider

  /** A `PATH` entry worth contributing: non-empty and not already on the
      process's `PATH`. */
  predicate Eligible(p: string, processPaths: seq<string>) {
    p != "" && p !in processPaths
  }

  /** The entries of `misePaths` the loop appends, scanning left to right
      with `seen` the entries appended so far. */
  function Added(misePaths: seq<string>, processPaths: seq<string>, seen: set<string>): seq<string>
    decreases |misePaths|
  {
    if misePaths == [] then []
    else
      var p := misePaths[0];
      if Eligible(p, processPaths) && p !in seen then [p] + Added(misePaths[1..], processPaths, seen + {p})
      else Added(misePaths[1..], processPaths, seen)
  }

  /** The paths contributed for an env map: none unless it holds a
      non-empty `PATH`. */
  function ContributedPaths(envs: map<string, string>, processPath: string): seq<string> {
    if "PATH" in envs && envs["PATH"] != "" then Added(Split(envs["PATH"], ':'), Split(processPath, ':'), {})
    else []
  }

  /** `processEnvOutput`. */
  method ProcessEnvOutput(envs: map<string, string>, processPath: string) returns (activation: EnvironmentActivation)
    ensures activation.contributedEnvVars == envs - {"PATH"}
    ensures activation.contributedPaths == ContributedPaths(envs, processPath)
  {
    var envsWithoutPath := envs - {"PATH"};
    var pathsAddedByMise: seq<string> := [];
    if "PATH" in envs && envs["PATH"] != "" {
      var misePaths := Split(envs["PATH"], ':');
      var processPaths := Split(processPath, ':');
      var addedPaths: set<string> := {};
      for i := 0 to |misePaths|
        invariant pathsAddedByMise + Added(misePaths[i..], processPaths, addedPaths)
                  == Added(misePaths, processPaths, {})
      {
        var p := misePaths[i];
        assert misePaths[i..][1..] == misePaths[i + 1..];
        if p != "" && p !in processPaths && p !in addedPaths {
          pathsAddedByMise := pathsAddedByMise + [p];
          addedPaths := addedPaths + {p};
        }
      }
    }
    activation := EnvironmentActivation(envsWithoutPath, pathsAddedByMise);
  }

  // ---- What the loop contributes ----

  /** Everything appended is an eligible entry of the mise `PATH` that was
      not appended before. */
  lemma {:induction false} AddedSound(misePaths: seq<string>, processPaths: seq<string>, seen: set<string>)
    ensures forall p | p in Added(misePaths, processPaths, seen) ::
      p in misePaths && Eligible(p, processPaths) && p !in seen
    decreases |misePaths|
  {
    if misePaths != [] {
      var p := misePaths[0];
      if Eligible(p, processPaths) && p !in seen {
        AddedSound(misePaths[1..], processPaths, seen + {p});
      } else {
        AddedSound(misePaths[1..], processPaths, seen);
      }
    }
  }

  /** Nothing eligible is dropped. */
  lemma {:induction false} AddedComplete(misePaths: seq<string>, processPaths: seq<string>, seen: set<string>)
    ensures forall p | p in misePaths && Eligible(p, processPaths) && p !in seen ::
      p in Added(misePaths, processPaths, seen)
    decreases |misePaths|
  {
    if misePaths != [] {
      var q := misePaths[0];
      if Eligible(q, processPaths) && q !in seen {
        AddedComplete(misePaths[1..], processPaths, seen + {q});
      } else {
        AddedComplete(misePaths[1..], processPaths, seen);
      }
      forall p | p in misePaths && Eligible(p, processPaths) && p !in seen
        ensures p in Added(misePaths, processPaths, seen)
      {
        if p != q {
          assert p in misePaths[1..];
        }
      }
    }
  }

  /** No element occurs twice. */
  predicate NoDuplicates(r: seq<string>) {
    forall i, j | 0 <= i < j < |r| :: r[i] != r[j]
  }

  /** No path is contributed twice. */
  lemma {:induction false} AddedDistinct(misePaths: seq<string>, processPaths: seq<string>, seen: set<string>)
    ensures NoDuplicates(Added(misePaths, processPaths, seen))
    decreases |misePaths|
  {
    if misePaths != [] {
      var p := misePaths[0];
      var r := Added(misePaths, processPaths, seen);
      if Eligible(p, processPaths) && p !in seen {
        var t := Added(misePaths[1..], processPaths, seen + {p});
        AddedDistinct(misePaths[1..], processPaths, seen + {p});
        AddedSound(misePaths[1..], processPaths, seen + {p});
        assert r == [p] + t;
        forall i, j | 0 <= i < j < |r|
          ensures r[i] != r[j]
        {
          assert r[j] == t[j - 1] && t[j - 1] in t;
          if i > 0 {
            assert r[i] == t[i - 1];
          }
        }
      } else {
        AddedDistinct(misePaths[1..], processPaths, seen);
      }
    }
  }

  /** The position of the first occurrence of `x` in `s` (`|s|` if none). */
  function FirstIndex(s: seq<string>, x: string): nat
    decreases |s|
  {
    if s == [] || s[0] == x then 0 else 1 + FirstIndex(s[1..], x)
  }

  /** The elements of `r` appear in the order of their first occurrence
      in `s`. */
  predicate InFirstOccurrenceOrder(r: seq<string>, s: seq<string>) {
    forall i, j | 0 <= i < j < |r| :: FirstIndex(s, r[i]) < FirstIndex(s, r[j])
  }

  /** The contributed paths keep the order in which they first occur on
      the mise `PATH`. */
  lemma {:induction false} AddedInFirstOccurrenceOrder(misePaths: seq<string>, processPaths: seq<string>, seen: set<string>)
    ensures InFirstOccurrenceOrder(Added(misePaths, processPaths, seen), misePaths)
    decreases |misePaths|
  {
    if misePaths != [] {
      var p := misePaths[0];
      var rest := misePaths[1..];
      var r := Added(misePaths, processPaths, seen);
      if Eligible(p, processPaths) && p !in seen {
        var t := Added(rest, processPaths, seen + {p});
        AddedInFirstOccurrenceOrder(rest, processPaths, seen + {p});
        AddedSound(rest, processPaths, seen + {p});
        assert r == [p] + t;
        forall i, j | 0 <= i < j < |r|
          ensures FirstIndex(misePaths, r[i]) < FirstIndex(misePaths, r[j])
        {
          assert r[j] == t[j - 1] && t[j - 1] in t;
          assert FirstIndex(misePaths, r[j]) == 1 + FirstIndex(rest, t[j - 1]);
          if i > 0 {
            assert r[i] == t[i - 1] && t[i - 1] in t;
            assert FirstIndex(misePaths, r[i]) == 1 + FirstIndex(rest, t[i - 1]);
            assert FirstIndex(rest, t[i - 1]) < FirstIndex(rest, t[j - 1]);
          }
        }
      } else {
        AddedInFirstOccurrenceOrder(rest, processPaths, seen);
        AddedSound(rest, processPaths, seen);
        forall i, j | 0 <= i < j < |r|
          ensures FirstIndex(misePaths, r[i]) < FirstIndex(misePaths, r[j])
        {
          assert r[i] in r && r[j] in r;
          assert FirstIndex(misePaths, r[i]) == 1 + FirstIndex(rest, r[i]);
          assert FirstIndex(misePaths, r[j]) == 1 + FirstIndex(rest, r[j]);
        }
      }
    }
  }

  /** The contributed paths, stated on the env map: none without a
      non-empty `PATH`; otherwise exactly the eligible entries of the mise
      `PATH`, each once, in order of first occurrence. */
  lemma ContributedPathsCharacterised(envs: map<string, string>, processPath: string)
    ensures ("PATH" !in envs || envs["PATH"] == "") ==> ContributedPaths(envs, processPath) == []
    ensures "PATH" in envs && envs["PATH"] != "" ==>
      var misePaths, processPaths := Split(envs["PATH"], ':'), Split(processPath, ':');
      var r := ContributedPaths(envs, processPath);
      && (forall p :: p in r <==> p in misePaths && Eligible(p, processPaths))
      && NoDuplicates(r)
      && InFirstOccurrenceOrder(r, misePaths)
  {
    if "PATH" in envs && envs["PATH"] != "" {
      var misePaths, processPaths := Split(envs["PATH"], ':'), Split(processPath, ':');
      AddedSound(misePaths, processPaths, {});
      AddedComplete(misePaths, processPaths, {});
      AddedDistinct(misePaths, processPaths, {});
      AddedInFirstOccurrenceOrder(misePaths, processPaths, {});
    }
  }
}
