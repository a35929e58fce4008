/** The command-line entry point's pure helpers: the display name of a
    strategy, putting a directory in front of `PATH`, and reading
    `KEY=value` environment entries into a map. */
module Cli {
  import opened GoStrings
  import opened Provider

  /** The name a strategy is listed under; anything unknown shows as
      strict. */
  function StrategyDisplayName(s: Strategy): (name: string)
    ensures name in {"strict", "closest_installed", "closest_released"}
  {
    if s == LatestInstalled then "closest_installed"
    else if s == LatestReleased then "closest_released"
    else "strict"
  }

  /** The three strategies are listed under three different names. */
  lemma DisplayNamesDistinct(s: Strategy, t: Strategy)
    requires s in {Strict, LatestInstalled, LatestReleased} && t in {Strict, LatestInstalled, LatestReleased}
    ensures StrategyDisplayName(s) == StrategyDisplayName(t) <==> s == t
  {
    assert "strict" != "closest_installed" by { assert "strict"[1] != "closest_installed"[1]; }
    assert "strict" != "closest_released" by { assert "strict"[1] != "closest_released"[1]; }
    assert "closest_installed" != "closest_released" by {
      assert "closest_installed"[8] != "closest_released"[8];
    }
  }

  // ---- prependPath ----

  /** The items not equal to `x`, in order. */
  function Without(items: seq<string>, x: string): seq<string>
  {
    if items == [] then []
    else Without(items[..|items| - 1], x) + (if items[|items| - 1] != x then [items[|items| - 1]] else [])
  }

  /** `Without` keeps exactly the items other than `x`, and keeps them in
      order: it distributes over concatenation. */
  lemma {:induction false} WithoutMembers(items: seq<string>, x: string)
    ensures forall p :: p in Without(items, x) <==> p in items && p != x
  {
    if items != [] {
      var init := items[..|items| - 1];
      WithoutMembers(init, x);
      assert items == init + [items[|items| - 1]];
    }
  }

  lemma {:induction false} WithoutAppend(a: seq<string>, b: seq<string>, x: string)
    ensures Without(a + b, x) == Without(a, x) + Without(b, x)
    decreases |b|
  {
    if b == [] {
      assert a + b == a;
    } else {
      var init := b[..|b| - 1];
      WithoutAppend(a, init, x);
      assert (a + b)[..|a + b| - 1] == a + init;
    }
  }

  /** `slices.DeleteFunc` with an equality test: compacts the items other
      than `x` to the front of `a`, in order, and returns their number. */
  method DeleteEqual(a: array<string>, x: string) returns (n: nat)
    modifies a
    ensures n <= a.Length
    ensures a[..n] == Without(old(a[..]), x)
  {
    ghost var s := a[..];
    n := 0;
    for i := 0 to a.Length
      invariant n <= i
      invariant a[..n] == Without(s[..i], x)
      invariant forall k | i <= k < a.Length :: a[k] == s[k]
    {
      assert s[..i + 1][..i] == s[..i];
      var v := a[i];
      if v != x {
        ghost var kept := a[..n];
        a[n] := v;
        assert a[..n + 1] == kept + [v];
        n := n + 1;
      }
    }
    assert s[..a.Length] == s;
  }

  /** What `prependPath(pathEnv, newPath)` returns. */
  function Prepended(pathEnv: string, newPath: string): string {
    if pathEnv == "" then newPath
    else
      var kept := Without(Split(pathEnv, ':'), newPath);
      if kept == [] then newPath else newPath + ":" + Join(kept, ':')
  }

  /** `prependPath`. */
  method PrependPath(pathEnv: string, newPath: string) returns (r: string)
    ensures r == Prepended(pathEnv, newPath)
  {
    if pathEnv == "" {
      return newPath;
    }
    var pathItems := Split(pathEnv, ':');
    var a := new string[|pathItems|](i requires 0 <= i < |pathItems| => pathItems[i]);
    assert a[..] == pathItems;
    var n := DeleteEqual(a, newPath);
    if n == 0 {
      return newPath;
    }
    return newPath + ":" + Join(a[..n], ':');
  }

  lemma SplitWithoutSep(s: string, sep: char)
    requires sep !in s
    ensures Split(s, sep) == [s]
  {
  }

  /** The single-directory case: the result's `PATH` entries are the new
      directory followed by the old entries other than it, in their old
      order, so the directory occurs once and in front. */
  lemma PrependedEntries(pathEnv: string, newPath: string)
    requires ':' !in newPath
    ensures pathEnv == "" ==> Prepended(pathEnv, newPath) == newPath
    ensures pathEnv != "" ==>
      Split(Prepended(pathEnv, newPath), ':') == [newPath] + Without(Split(pathEnv, ':'), newPath)
    ensures newPath !in Split(Prepended(pathEnv, newPath), ':')[1..]
  {
    SplitWithoutSep(newPath, ':');
    if pathEnv != "" {
      var items := Split(pathEnv, ':');
      var kept := Without(items, newPath);
      WithoutMembers(items, newPath);
      SplitPiecesSepFree(pathEnv, ':');
      if kept != [] {
        assert newPath + ":" + Join(kept, ':') == Join([newPath] + kept, ':') by {
          JoinCons(newPath, kept, ':');
        }
        SplitJoin([newPath] + kept, ':');
      }
      assert Split(Prepended(pathEnv, newPath), ':')[1..] == kept;
    }
  }

  /** The single-directory case: prepending the same directory twice
      changes nothing more. */
  lemma PrependIdempotent(pathEnv: string, newPath: string)
    requires ':' !in newPath
    ensures Prepended(Prepended(pathEnv, newPath), newPath) == Prepended(pathEnv, newPath)
  {
    var r := Prepended(pathEnv, newPath);
    PrependedEntries(pathEnv, newPath);
    if r != "" {
      var kept := Split(r, ':')[1..];
      WithoutMembers(kept, newPath);
      WithoutEverything(kept, newPath);
      WithoutAppend([newPath], kept, newPath);
      assert Without([newPath], newPath) == [];
      assert Without(Split(r, ':'), newPath) == kept;
      if kept == [] {
        assert Prepended(r, newPath) == newPath;
        assert r == newPath by {
          if pathEnv != "" {
            JoinSplit(r, ':');
            assert Split(r, ':') == [newPath];
          }
        }
      } else {
        JoinSplit(r, ':');
        JoinCons(newPath, kept, ':');
        assert [newPath] + kept == Split(r, ':');
      }
    }
  }

  /** Several directories joined with `:`, as the entry point passes the
      paths an activation contributes: no `PATH` entry can equal the joined
      text, so nothing is removed and the text goes in front of the whole
      `PATH`; prepending it again puts a second copy in front. */
  lemma PrependJoinedPaths(pathEnv: string, newPath: string)
    requires ':' in newPath
    requires pathEnv != ""
    ensures Prepended(pathEnv, newPath) == newPath + ":" + pathEnv
    ensures Prepended(Prepended(pathEnv, newPath), newPath) == newPath + ":" + newPath + ":" + pathEnv
  {
    NothingRemovedForJoined(pathEnv, newPath);
    NothingRemovedForJoined(newPath + ":" + pathEnv, newPath);
  }

  lemma NothingRemovedForJoined(pathEnv: string, newPath: string)
    requires ':' in newPath
    requires pathEnv != ""
    ensures Prepended(pathEnv, newPath) == newPath + ":" + pathEnv
  {
    var items := Split(pathEnv, ':');
    SplitPiecesSepFree(pathEnv, ':');
    assert newPath !in items;
    WithoutEverything(items, newPath);
    JoinSplit(pathEnv, ':');
  }

  /** `Without` leaves a list alone exactly when `x` is not in it, and
      empties it exactly when every item is `x`. */
  lemma {:induction false} WithoutEverything(items: seq<string>, x: string)
    ensures x !in items ==> Without(items, x) == items
    ensures Without(items, x) == [] <==> forall p | p in items :: p == x
  {
    WithoutMembers(items, x);
    if Without(items, x) != [] {
      assert Without(items, x)[0] in Without(items, x);
    }
    if items != [] && x !in items {
      var init := items[..|items| - 1];
      WithoutEverything(init, x);
      assert items == init + [items[|items| - 1]];
    }
  }


  /** When every entry of `PATH` already is the directory, the result is
      just the directory. */
  lemma PrependOnlyDuplicates(pathEnv: string, newPath: string)
    requires forall p | p in Split(pathEnv, ':') :: p == newPath
    ensures Prepended(pathEnv, newPath) == newPath
  {
    WithoutEverything(Split(pathEnv, ':'), newPath);
  }

  /** An empty directory in front of a `PATH` without empty entries adds a
      leading separator. */
  lemma PrependEmptyDirectory(pathEnv: string)
    requires pathEnv != ""
    requires "" !in Split(pathEnv, ':')
    ensures Prepended(pathEnv, "") == ":" + pathEnv
  {
    WithoutEverything(Split(pathEnv, ':'), "");
    JoinSplit(pathEnv, ':');
  }

  // ---- convertEnvToMap ----

  /** Entry `e` sets `key`: it has an `=` and the text before the first one
      is `key`. */
  predicate Defines(e: string, key: string) {
    IndexOf(e, '=') >= 0 && e[..IndexOf(e, '=')] == key
  }

  /** The value an entry with an `=` sets: the text after the first one. */
  function ValueOf(e: string): string
    requires IndexOf(e, '=') >= 0
  {
    e[IndexOf(e, '=') + 1..]
  }

  /** The map the entries build, the later entries overwriting. */
  function EnvMap(env: seq<string>): map<string, string>
  {
    if env == [] then map[]
    else
      var e := env[|env| - 1];
      var m := EnvMap(env[..|env| - 1]);
      if IndexOf(e, '=') < 0 then m else m[e[..IndexOf(e, '=')] := ValueOf(e)]
  }

  /** `convertEnvToMap`. */
  method ConvertEnvToMap(env: seq<string>) returns (result: map<string, string>)
    ensures result == EnvMap(env)
  {
    result := map[];
    for i := 0 to |env|
      invariant result == EnvMap(env[..i])
    {
      assert env[..i + 1][..i] == env[..i];
      var envVar := env[i];
      var eq := IndexOf(envVar, '=');
      if eq >= 0 {
        result := result[envVar[..eq] := envVar[eq + 1..]];
      }
    }
    assert env[..|env|] == env;
  }

  /** A key is in the map exactly when some entry sets it, and its value is
      the one the last such entry sets. */
  lemma {:induction false} EnvMapLastWins(env: seq<string>, key: string)
    ensures key in EnvMap(env) <==> exists i | 0 <= i < |env| :: Defines(env[i], key)
    ensures key in EnvMap(env) ==> exists i | 0 <= i < |env| ::
      Defines(env[i], key) && EnvMap(env)[key] == ValueOf(env[i])
      && forall j | i < j < |env| :: !Defines(env[j], key)
  {
    if env != [] {
      var init := env[..|env| - 1];
      var e := env[|env| - 1];
      EnvMapLastWins(init, key);
      if Defines(e, key) {
        assert Defines(env[|env| - 1], key);
      } else {
        if key in EnvMap(env) {
          var i :| 0 <= i < |init| && Defines(init[i], key) && EnvMap(init)[key] == ValueOf(init[i])
                   && forall j | i < j < |init| :: !Defines(init[j], key);
          assert env[i] == init[i];
          forall j | i < j < |env| ensures !Defines(env[j], key) {
            if j < |init| {
              assert env[j] == init[j];
            }
          }
        }
        if exists i | 0 <= i < |env| :: Defines(env[i], key) {
          var i :| 0 <= i < |env| && Defines(env[i], key);
          assert i < |init| && init[i] == env[i];
        }
      }
    }
  }

  /** An entry `key=value` with an `=`-free key reads back as that key and
      value; the value may itself hold `=`. */
  lemma EntryRoundTrip(key: string, value: string)
    requires '=' !in key
    ensures EnvMap([key + "=" + value]) == map[key := value]
  {
    var e: string := key + "=" + value;
    var env: seq<string> := [e];
    IndexOfAfter(key, '=', value);
    assert e == key + ['='] + value;
    assert e[..|key|] == key;
    assert e[|key| + 1..] == value;
    assert env[..0] == [];
  }
}
