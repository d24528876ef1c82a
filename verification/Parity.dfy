/** The comparison of two generated trees, path by path (codegen/cmd/jcrpc-parity/main.go). */
module Parity {
  import opened Wrappers
  import opened Keys

  /** The reported difference; a digest that is missing is reported as the empty string. */
  datatype Drift = Drift(path: string, baseline: string, candidate: string)

  function Digest(files: map<string, string>, path: string): string {
    if path in files then files[path] else ""
  }

  predicate Differs(baseline: map<string, string>, candidate: map<string, string>, path: string) {
    path !in baseline || path !in candidate || baseline[path] != candidate[path]
  }

  // The least path on which the trees differ.
  ghost predicate LeastDrift(baseline: map<string, string>, candidate: map<string, string>, drift: Drift) {
    && (drift.path in baseline || drift.path in candidate)
    && Differs(baseline, candidate, drift.path)
    && (forall path | path in baseline || path in candidate ::
          Differs(baseline, candidate, path) ==> path == drift.path || Before(drift.path, path))
    && drift.baseline == Digest(baseline, drift.path) && drift.candidate == Digest(candidate, drift.path)
  }

  lemma OneLeastDrift(baseline: map<string, string>, candidate: map<string, string>, a: Drift, b: Drift)
    requires LeastDrift(baseline, candidate, a) && LeastDrift(baseline, candidate, b)
    ensures a == b
  {
    Trichotomy(a.path, b.path);
  }

  // The keys of both maps, each once: first the baseline's, then those only the candidate has.
  method AllPaths(baseline: map<string, string>, candidate: map<string, string>,
                  baselineOrder: seq<string>, candidateOrder: seq<string>) returns (keys: seq<string>)
    requires Enumerates(baselineOrder, baseline.Keys) && Enumerates(candidateOrder, candidate.Keys)
    ensures Enumerates(keys, baseline.Keys + candidate.Keys)
  {
    keys := [];
    for i := 0 to |baselineOrder|
      invariant keys == baselineOrder[..i]
    {
      keys := keys + [baselineOrder[i]];
    }
    for i := 0 to |candidateOrder|
      invariant Distinct(keys)
      invariant forall k :: k in keys <==> k in baseline || k in candidateOrder[..i]
    {
      if candidateOrder[i] !in baseline {
        assert candidateOrder[i] !in candidateOrder[..i];
        keys := keys + [candidateOrder[i]];
      }
      assert candidateOrder[..i + 1] == candidateOrder[..i] + [candidateOrder[i]];
    }
  }

  lemma FirstIsLeast(baseline: map<string, string>, candidate: map<string, string>, keys: seq<string>, i: nat)
    requires Ascending(keys) && Enumerates(keys, baseline.Keys + candidate.Keys) && i < |keys|
    requires Differs(baseline, candidate, keys[i])
    requires forall j | 0 <= j < i :: !Differs(baseline, candidate, keys[j])
    ensures LeastDrift(baseline, candidate,
              Drift(keys[i], Digest(baseline, keys[i]), Digest(candidate, keys[i])))
    ensures baseline != candidate
  {
    assert keys[i] in keys;
    forall path | (path in baseline || path in candidate) && Differs(baseline, candidate, path)
      ensures path == keys[i] || Before(keys[i], path)
    {
      assert path in keys;
    }
  }

  lemma NoneDiffers(baseline: map<string, string>, candidate: map<string, string>, keys: seq<string>)
    requires Enumerates(keys, baseline.Keys + candidate.Keys)
    requires forall j | 0 <= j < |keys| :: !Differs(baseline, candidate, keys[j])
    ensures baseline == candidate
  {
    forall path | path in baseline || path in candidate ensures !Differs(baseline, candidate, path) {
      assert path in keys;
    }
  }

  // The loop over the sorted keys.
  method FirstDrift(baseline: map<string, string>, candidate: map<string, string>, keys: seq<string>)
    returns (drift: Option<Drift>)
    requires Ascending(keys) && Enumerates(keys, baseline.Keys + candidate.Keys)
    ensures drift.None? <==> baseline == candidate
    ensures drift.Some? ==> LeastDrift(baseline, candidate, drift.value)
  {
    for i := 0 to |keys|
      invariant forall j | 0 <= j < i :: !Differs(baseline, candidate, keys[j])
    {
      if Differs(baseline, candidate, keys[i]) {
        FirstIsLeast(baseline, candidate, keys, i);
        return Some(Drift(keys[i], Digest(baseline, keys[i]), Digest(candidate, keys[i])));
      }
    }
    NoneDiffers(baseline, candidate, keys);
    return None;
  }

  // None is the nil error. The range loops may visit the maps in any order.
  method CompareFiles(baseline: map<string, string>, candidate: map<string, string>,
                      baselineOrder: seq<string>, candidateOrder: seq<string>) returns (drift: Option<Drift>)
    requires Enumerates(baselineOrder, baseline.Keys) && Enumerates(candidateOrder, candidate.Keys)
    ensures drift.None? <==> baseline == candidate
    ensures drift.Some? ==> LeastDrift(baseline, candidate, drift.value)
    ensures drift.Some? ==>
      var path := drift.value.path;
      && drift.value.baseline == (if path in baseline then baseline[path] else "")
      && drift.value.candidate == (if path in candidate then candidate[path] else "")
  {
    var keys := AllPaths(baseline, candidate, baselineOrder, candidateOrder);
    SortedKeys(keys, baseline.Keys + candidate.Keys);
    drift := FirstDrift(baseline, candidate, Sort(keys));
  }
}
