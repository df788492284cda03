/** The environment-variable allowlist handed to agent adapters: the in-place deduplication that builds the default,
    and the merge with a workflow's own declarations. */
module EnvAllowlist {
  import opened FirstOccurrence

  /** The deduplication behind `defaultAgentEnv` writes into the array it is still reading. The write index never passes
      the read index, so no unread element is overwritten, and what is left in front is the first occurrence of every name. */
  method DedupInPlace(names: array<string>) returns (kept: nat)
    modifies names
    ensures kept <= names.Length
    ensures names[..kept] == Dedup(old(names[..]))
  {
    ghost var was := names[..];
    var seen: set<string> := {};
    kept := 0;
    for i := 0 to names.Length
      invariant kept <= i
      invariant names[i..] == was[i..]
      invariant seen == Elements(was[..i])
      invariant names[..kept] == Dedup(was[..i])
    {
      var k := names[i];
      assert k == names[i..][0] == was[i];
      assert was[..i + 1] == was[..i] + [k];
      DedupSnoc(was[..i], k);
      if k !in seen {
        seen := seen + {k};
        ghost var front := names[..kept];
        names[kept] := k;
        kept := kept + 1;
        assert names[..kept] == front + [k];
      }
      assert names[i + 1..] == was[i..][1..];
    }
    assert was[..names.Length] == was;
  }

  /** The names of a list, empty ones left out. */
  function Named(names: seq<string>): seq<string> {
    if names == [] then [] else (if names[0] == "" then [] else [names[0]]) + Named(names[1..])
  }

  /** What merging two allowlists means. */
  function Merged(base: seq<string>, extra: seq<string>): seq<string> {
    Dedup(Named(base + extra))
  }

  lemma {:induction false} NamedConcat(a: seq<string>, b: seq<string>)
    ensures Named(a + b) == Named(a) + Named(b)
  {
    if a == [] {
      assert a + b == b;
    } else {
      NamedConcat(a[1..], b);
      assert (a + b)[1..] == a[1..] + b;
      var head := if a[0] == "" then [] else [a[0]];
      assert head + (Named(a[1..]) + Named(b)) == head + Named(a[1..]) + Named(b);
    }
  }

  lemma {:induction false} NamedHolds(names: seq<string>, x: string)
    ensures x in Named(names) <==> x in names && x != ""
  {
    if names != [] {
      NamedHolds(names[1..], x);
      assert x in names <==> x == names[0] || x in names[1..];
    }
  }

  lemma {:induction false} NamedKeepsNames(names: seq<string>)
    requires "" !in names
    ensures Named(names) == names
  {
    if names != [] {
      assert names[0] != "";
      NamedKeepsNames(names[1..]);
    }
  }

  /** `mergeWorkflowEnv`; `isNil` tells that the merge returned the nil slice. */
  method MergeWorkflowEnv(base: seq<string>, workflowEnv: seq<string>) returns (out: seq<string>, isNil: bool)
    ensures out == Merged(base, workflowEnv)
    ensures isNil <==> out == []
  {
    var seen: set<string> := {};
    out := [];
    for i := 0 to |base|
      invariant out == Dedup(Named(base[..i])) && seen == Elements(Named(base[..i]))
    {
      out, seen := Add(out, seen, base[i], base[..i]);
      assert base[..i + 1] == base[..i] + [base[i]];
    }
    assert base[..|base|] == base && base + workflowEnv[..0] == base;
    for i := 0 to |workflowEnv|
      invariant out == Dedup(Named(base + workflowEnv[..i])) && seen == Elements(Named(base + workflowEnv[..i]))
    {
      out, seen := Add(out, seen, workflowEnv[i], base + workflowEnv[..i]);
      assert base + workflowEnv[..i + 1] == base + workflowEnv[..i] + [workflowEnv[i]];
    }
    assert workflowEnv[..|workflowEnv|] == workflowEnv;
    isNil := out == [];
  }

  /** The `add` closure. */
  method Add(out: seq<string>, seen: set<string>, name: string, ghost before: seq<string>) returns (out': seq<string>, seen': set<string>)
    requires out == Dedup(Named(before)) && seen == Elements(Named(before))
    ensures out' == Dedup(Named(before + [name])) && seen' == Elements(Named(before + [name]))
  {
    NamedConcat(before, [name]);
    assert [name][1..] == [];
    if name == "" {
      assert Named([name]) == [];
      assert Named(before) + [] == Named(before);
      return out, seen;
    }
    assert Named([name]) == [name];
    DedupSnoc(Named(before), name);
    if name in seen {
      return out, seen;
    }
    return out + [name], seen + {name};
  }

  /** A merge has no duplicates, no empty name, and covers exactly the union. */
  lemma MergedIsTheUnion(base: seq<string>, extra: seq<string>, x: string)
    ensures NoDuplicates(Merged(base, extra))
    ensures x in Merged(base, extra) <==> x != "" && (x in base || x in extra)
  {
    FreshHasNoDuplicates(Named(base + extra), {});
    FreshHolds(Named(base + extra), {}, x);
    NamedHolds(base + extra, x);
  }

  /** A merge lists its names in the order in which the two lists mention them first. */
  lemma MergedKeepsOrder(base: seq<string>, extra: seq<string>, i: nat, j: nat)
    requires i < j < |Merged(base, extra)|
    ensures Merged(base, extra)[i] in base + extra && Merged(base, extra)[j] in base + extra
    ensures FirstIndex(base + extra, Merged(base, extra)[i]) < FirstIndex(base + extra, Merged(base, extra)[j])
  {
    var all := base + extra;
    var x, y := Merged(base, extra)[i], Merged(base, extra)[j];
    FreshKeepsOrder(Named(all), {}, i, j);
    NamedHolds(all, x);
    NamedHolds(all, y);
    NamedKeepsOrder(all, x, y);
  }

  lemma {:induction false} NamedKeepsOrder(names: seq<string>, x: string, y: string)
    requires x in Named(names) && y in Named(names) && x in names && y in names
    requires FirstIndex(Named(names), x) < FirstIndex(Named(names), y)
    ensures FirstIndex(names, x) < FirstIndex(names, y)
  {
    var rest := names[1..];
    NamedHolds(names, x);
    NamedHolds(names, y);
    NamedHolds(rest, x);
    NamedHolds(rest, y);
    if names[0] == "" {
      assert Named(names) == Named(rest);
      NamedKeepsOrder(rest, x, y);
    } else {
      assert Named(names)[1..] == Named(rest);
      assert y != names[0];
      if x != names[0] {
        NamedKeepsOrder(rest, x, y);
      }
    }
  }

  lemma NoEmptyName(base: seq<string>, extra: seq<string>)
    ensures Named(Merged(base, extra)) == Merged(base, extra)
  {
    MergedIsTheUnion(base, extra, "");
    NamedKeepsNames(Merged(base, extra));
  }

  /** Merging is associative: it does not matter in which grouping several lists are joined. */
  lemma MergeIsAssociative(a: seq<string>, b: seq<string>, c: seq<string>)
    ensures Merged(Merged(a, b), c) == Merged(a, Merged(b, c))
  {
    hide Fresh, Named;
    NoEmptyName(a, b);
    NoEmptyName(b, c);
    NamedConcat(Merged(a, b), c);
    NamedConcat(a, Merged(b, c));
    NamedConcat(a, b);
    NamedConcat(b, c);
    DedupRegroups(Named(a), Named(b), Named(c));
  }

  lemma DedupRegroups<T>(a: seq<T>, b: seq<T>, c: seq<T>)
    ensures Dedup(Dedup(a + b) + c) == Dedup(a + Dedup(b + c))
  {
    hide Fresh;
    DedupFirst(a + b, c, {});
    DedupLater(a, b + c, {});
    assert a + b + c == a + (b + c);
  }
}
