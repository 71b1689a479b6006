/** Database testing helpers of the brewing framework: the temporary
    environment overlay `env`, the optional persistent volume, and the
    location of the testing SQLite database. */
module DbTesting {
  import opened Wrappers

  /** A mutable string mapping, such as `os.environ`. */
  class Environ {
    var vars: map<string, string>

    constructor (vars: map<string, string>)
      ensures this.vars == vars
    {
      this.vars := vars;
    }
  }

  /** The `KeyError` of deleting a key that is no longer there. */
  datatype KeyError = KeyError(key: string)

  /** The keys of a dict given as its items, in order. */
  function Keys<V>(items: seq<(string, V)>): (r: seq<string>)
    ensures |r| == |items|
    ensures forall i :: 0 <= i < |items| ==> r[i] == items[i].0
  {
    if items == [] then [] else Keys(items[..|items| - 1]) + [items[|items| - 1].0]
  }

  /** No key appears twice, as in any dict. */
  predicate DistinctKeys<V>(items: seq<(string, V)>)
  {
    forall i, j :: 0 <= i < j < |items| ==> items[i].0 != items[j].0
  }

  /** The mapping with every item of `items` assigned, in order. */
  function Overlay(vars: map<string, string>, items: seq<(string, string)>): (r: map<string, string>)
    ensures forall k :: k in r <==> k in vars || k in Keys(items)
    ensures forall k :: k in vars && k !in Keys(items) ==> r[k] == vars[k]
  {
    if items == [] then vars
    else
      var last := items[|items| - 1];
      var init := items[..|items| - 1];
      assert Keys(items) == Keys(init) + [last.0];
      Overlay(vars, init)[last.0 := last.1]
  }

  /** With distinct keys, each key holds its own new value. */
  lemma {:induction false} OverlayAt(vars: map<string, string>, items: seq<(string, string)>, i: nat)
    requires DistinctKeys(items) && i < |items|
    ensures items[i].0 in Overlay(vars, items) && Overlay(vars, items)[items[i].0] == items[i].1
    decreases |items|
  {
    var init := items[..|items| - 1];
    if i < |items| - 1 {
      assert DistinctKeys(init) by {
        forall a, b | 0 <= a < b < |init| ensures init[a].0 != init[b].0 {
          assert init[a] == items[a] && init[b] == items[b];
        }
      }
      OverlayAt(vars, init, i);
      assert init[i] == items[i];
      assert items[i].0 != items[|items| - 1].0;
    }
  }

  /** The saved values `orig`: for each key, its value before, or `None`. */
  function Saved(vars: map<string, string>, items: seq<(string, string)>): (r: seq<(string, Option<string>)>)
    ensures |r| == |items|
    ensures forall i :: 0 <= i < |items| ==>
              r[i] == (items[i].0, if items[i].0 in vars then Some(vars[items[i].0]) else None)
  {
    if items == [] then []
    else
      var key := items[|items| - 1].0;
      Saved(vars, items[..|items| - 1]) + [(key, if key in vars then Some(vars[key]) else None)]
  }

  /** The restore loop, one saved item after another, stopping at the first
      key that raises: what the mapping then holds, and the error if any. */
  function Restore(vars: map<string, string>, saved: seq<(string, Option<string>)>): (r: (map<string, string>, Option<KeyError>))
  {
    if saved == [] then (vars, None)
    else
      var prev := Restore(vars, saved[..|saved| - 1]);
      var item := saved[|saved| - 1];
      if prev.1.Some? then prev
      else if item.1.Some? then (prev.0[item.0 := item.1.value], None)
      else if item.0 in prev.0 then (prev.0 - {item.0}, None)
      else (prev.0, Some(KeyError(item.0)))
  }

  /** Entering `env(new_env)`: each key's old value is saved, then the new
      value assigned. */
  method Enter(environ: Environ, newEnv: seq<(string, string)>) returns (orig: seq<(string, Option<string>)>)
    requires DistinctKeys(newEnv)
    modifies environ
    ensures orig == Saved(old(environ.vars), newEnv)
    ensures environ.vars == Overlay(old(environ.vars), newEnv)
  {
    ghost var before := environ.vars;
    orig := [];
    var i := 0;
    while i < |newEnv|
      invariant 0 <= i <= |newEnv|
      invariant environ.vars == Overlay(before, newEnv[..i])
      invariant orig == Saved(before, newEnv[..i])
    {
      var key := newEnv[i].0;
      EnterStep(before, newEnv, i);
      orig := orig + [(key, if key in environ.vars then Some(environ.vars[key]) else None)];
      environ.vars := environ.vars[key := newEnv[i].1];
      i := i + 1;
    }
    assert newEnv[..i] == newEnv;
  }

  /** One step of the enter loop: the key is not among the earlier ones, so
      the overlay so far still holds its old value. */
  lemma EnterStep(before: map<string, string>, newEnv: seq<(string, string)>, i: nat)
    requires DistinctKeys(newEnv) && i < |newEnv|
    ensures var key := newEnv[i].0;
            var vars := Overlay(before, newEnv[..i]);
            && Overlay(before, newEnv[..i + 1]) == vars[key := newEnv[i].1]
            && Saved(before, newEnv[..i + 1])
               == Saved(before, newEnv[..i]) + [(key, if key in vars then Some(vars[key]) else None)]
  {
    var key := newEnv[i].0;
    var prefix := newEnv[..i];
    assert newEnv[..i + 1][..i] == prefix;
    assert key !in Keys(prefix) by {
      forall j | 0 <= j < i ensures Keys(prefix)[j] != key {
        assert prefix[j] == newEnv[j];
      }
    }
  }

  /** Leaving `env`: every saved key gets its old value back, or is deleted
      when it had none; deleting a key that is gone raises, leaving the
      keys restored so far restored. */
  method Exit(environ: Environ, orig: seq<(string, Option<string>)>) returns (r: Result<(), KeyError>)
    modifies environ
    ensures environ.vars == Restore(old(environ.vars), orig).0
    ensures r.Failure? <==> Restore(old(environ.vars), orig).1.Some?
    ensures r.Failure? ==> r.error == Restore(old(environ.vars), orig).1.value
  {
    ghost var before := environ.vars;
    var i := 0;
    while i < |orig|
      invariant 0 <= i <= |orig|
      invariant Restore(before, orig[..i]) == (environ.vars, None)
    {
      var item := orig[i];
      assert orig[..i + 1][..i] == orig[..i];
      if item.1.None? {
        if item.0 !in environ.vars {
          RestoreStops(before, orig, i + 1);
          assert orig[..i + 1] + orig[i + 1..] == orig;
          return Failure(KeyError(item.0));
        }
        environ.vars := environ.vars - {item.0};
      } else {
        environ.vars := environ.vars[item.0 := item.1.value];
      }
      i := i + 1;
    }
    assert orig[..i] == orig;
    r := Success(());
  }

  /** Once the restore loop has raised, the later items change nothing. */
  lemma {:induction false} RestoreStops(vars: map<string, string>, saved: seq<(string, Option<string>)>, n: nat)
    requires n <= |saved|
    requires Restore(vars, saved[..n]).1.Some?
    ensures Restore(vars, saved) == Restore(vars, saved[..n])
    decreases |saved| - n
  {
    if n < |saved| {
      assert saved[..n + 1][..n] == saved[..n];
      RestoreStops(vars, saved, n + 1);
    } else {
      assert saved[..n] == saved;
    }
  }

  /** Leaving `env` right after entering it gives back the mapping as it
      was, with no error. */
  lemma {:induction false} EnterExitRoundTrip(vars: map<string, string>, newEnv: seq<(string, string)>)
    requires DistinctKeys(newEnv)
    ensures Restore(Overlay(vars, newEnv), Saved(vars, newEnv)) == (vars, None)
  {
    RestoreAfterBody(vars, newEnv, Overlay(vars, newEnv));
    var r := Restore(Overlay(vars, newEnv), Saved(vars, newEnv)).0;
    assert forall k :: k in r <==> k in vars;
    assert r == vars;
  }

  /** Whatever the body did, leaving `env` gives every new key back its old
      value or deletes it, and leaves every other key as the body left it;
      it raises only when the body deleted a key that had no old value. */
  lemma {:induction false} RestoreAfterBody(vars: map<string, string>, newEnv: seq<(string, string)>,
                                            body: map<string, string>)
    requires DistinctKeys(newEnv)
    ensures var r := Restore(body, Saved(vars, newEnv));
            && (r.1.None? <==> forall k :: k in Keys(newEnv) && k !in vars ==> k in body)
            && (r.1.None? ==>
                  && (forall k :: k in Keys(newEnv) ==> (k in r.0 <==> k in vars))
                  && (forall k :: k in Keys(newEnv) && k in vars ==> r.0[k] == vars[k])
                  && (forall k :: k !in Keys(newEnv) ==> (k in r.0 <==> k in body))
                  && (forall k :: k !in Keys(newEnv) && k in body ==> r.0[k] == body[k]))
    decreases |newEnv|
  {
    if newEnv != [] {
      var init := newEnv[..|newEnv| - 1];
      var key := newEnv[|newEnv| - 1].0;
      assert DistinctKeys(init);
      RestoreAfterBody(vars, init, body);
      var saved := Saved(vars, newEnv);
      assert saved[..|saved| - 1] == Saved(vars, init);
      assert Keys(newEnv) == Keys(init) + [key];
      assert key !in Keys(init);
    }
  }

  /** The whole `with env(new_env):` block around a body that returns the
      mapping it leaves, or raises with the mapping as it left it. The
      restore is not in a `finally`, so after a raising body the mapping
      stays as the body left it, new values included. */
  method WithEnv<E>(environ: Environ, newEnv: seq<(string, string)>,
                    body: map<string, string> -> Result<map<string, string>, (E, map<string, string>)>)
    returns (r: Result<Result<(), KeyError>, E>)
    requires DistinctKeys(newEnv)
    modifies environ
    ensures body(Overlay(old(environ.vars), newEnv)).Failure? ==>
              var (error, left) := body(Overlay(old(environ.vars), newEnv)).error;
              r == Failure(error) && environ.vars == left
    ensures body(Overlay(old(environ.vars), newEnv)).Success? ==>
              var after := body(Overlay(old(environ.vars), newEnv)).value;
              var (restored, error) := Restore(after, Saved(old(environ.vars), newEnv));
              && r.Success?
              && environ.vars == restored
              && (r.value.Failure? <==> error.Some?)
              && (r.value.Failure? ==> r.value.error == error.value)
  {
    var orig := Enter(environ, newEnv);
    var outcome := body(environ.vars);
    if outcome.Failure? {
      environ.vars := outcome.error.1;
      return Failure(outcome.error.0);
    }
    environ.vars := outcome.value;
    var restored := Exit(environ, orig);
    r := Success(restored);
  }

  /** A path built by `/` from a base path; pathlib's normalisation is not
      part of the model. */
  datatype PathValue = Base(path: string) | Child(parent: PathValue, name: string)

  /** `persistent_volume(base_path, name)`: nothing without a name, else
      the named child of the base path. */
  function PersistentVolume(basePath: PathValue, name: Option<string>): (r: Option<PathValue>)
    ensures r.None? <==> name.None? || name.value == ""
    ensures r.Some? ==> r.value == Child(basePath, name.value)
  {
    if name.None? || name.value == "" then None else Some(Child(basePath, name.value))
  }

  /** `str(Path.cwd() / name)` for an absolute, normalised working
      directory and a plain file name: the directory, a slash unless the
      directory is the root, and the name. */
  function CwdFile(cwd: string, name: string): (r: string)
    ensures cwd <= r && |r| > |name|
    ensures |r| == |cwd| + |name| + (if |cwd| > 0 && cwd[|cwd| - 1] == '/' then 0 else 1)
    ensures r[|r| - |name|..] == name && r[|r| - |name| - 1] == '/'
  {
    if |cwd| > 0 && cwd[|cwd| - 1] == '/' then cwd + name else cwd + "/" + name
  }

  /** The SQLite database the testing environment points to: a file in the
      working directory when the data persists, else an in-memory one. */
  function SqliteDatabase(cwd: string, persistData: bool): (r: string)
    ensures persistData ==> r == CwdFile(cwd, "db.sqlite")
    ensures !persistData ==> r == ":memory:"
  {
    if persistData then CwdFile(cwd, "db.sqlite") else ":memory:"
  }
}
