/** How the ARCO pipeline names the assets that it adds to an item. */
module ArcoAssets {
  import opened Names
  import opened Sequences

  // ---------- Numbered keys ----------

  function Numbered(key: string, n: nat): string {
    key + "-" + Decimal(n)
  }

  lemma NumberedInjective(key: string, m: nat, n: nat)
    requires Numbered(key, m) == Numbered(key, n)
    ensures m == n
  {
    var k := |key + "-"|;
    assert Numbered(key, m)[k..] == Decimal(m) && Numbered(key, n)[k..] == Decimal(n);
    DecimalInjective(m, n);
  }

  lemma NumberedIsLonger(key: string, n: nat)
    ensures Numbered(key, n) != key
  {
    assert |Numbered(key, n)| > |key|;
  }

  /** The key itself and its variants with the numbers from 2 below n. */
  ghost function Tried(key: string, n: nat): (r: set<string>)
    ensures n < 2 || forall m :: 2 <= m < n ==> Numbered(key, m) in r
  {
    if n <= 2 then {key} else Tried(key, n - 1) + {Numbered(key, n - 1)}
  }

  lemma {:induction false} TriedSize(key: string, n: nat)
    requires n >= 2
    ensures |Tried(key, n)| == n - 1
    ensures forall m :: m >= n ==> Numbered(key, m) !in Tried(key, n)
  {
    forall m ensures Numbered(key, m) != key {
      NumberedIsLonger(key, m);
    }
    if n > 2 {
      TriedSize(key, n - 1);
      forall m | m >= n ensures Numbered(key, m) != Numbered(key, n - 1) {
        if Numbered(key, m) == Numbered(key, n - 1) {
          NumberedInjective(key, m, n - 1);
        }
      }
    }
  }

  /** Pigeonhole: only as many numbers can be in use as there are taken keys. */
  lemma TriedFits(key: string, taken: set<string>, n: nat)
    requires n >= 2 && Tried(key, n) <= taken
    ensures n <= |taken| + 1
  {
    TriedSize(key, n);
    SubsetSize(Tried(key, n), taken);
  }

  ghost function FirstFree(key: string, taken: set<string>, n: nat): (r: nat)
    requires n >= 2 && Tried(key, n) <= taken
    ensures n <= r <= |taken| + 1 && Numbered(key, r) !in taken && forall m :: n <= m < r ==> Numbered(key, m) in taken
    decreases |taken| + 2 - n
  {
    TriedFits(key, taken, n);
    if Numbered(key, n) !in taken then n else FirstFree(key, taken, n + 1)
  }

  /** The key that a result gets. */
  ghost function UniqueKey(key: string, source: string, taken: set<string>): string {
    if key !in taken || key == source then key else Numbered(key, FirstFree(key, taken, 2))
  }

  /** A collision is numbered with the smallest free number from 2 on, at most one above the number
      of taken keys; a result that re-points its own source keeps its key. */
  method UniqueAssetKey(key: string, source: string, taken: set<string>) returns (unique: string, ghost number: nat)
    ensures unique == UniqueKey(key, source, taken)
    ensures unique in taken <==> key == source && key in taken
    ensures unique != key ==> 2 <= number <= |taken| + 1 && unique == Numbered(key, number)
    ensures unique != key ==> key in taken && forall m :: 2 <= m < number ==> Numbered(key, m) in taken
  {
    number := 0;
    if key !in taken || key == source {
      return key, number;
    }
    var n := 2;
    TriedFits(key, taken, n);
    while Numbered(key, n) in taken
      invariant 2 <= n <= |taken| + 1 && Tried(key, n) <= taken
      invariant FirstFree(key, taken, 2) == FirstFree(key, taken, n)
      decreases |taken| + 2 - n
    {
      n := n + 1;
      TriedFits(key, taken, n);
    }
    NumberedIsLonger(key, n);
    return Numbered(key, n), n;
  }

  // ---------- Stale keys ----------

  predicate AllDigits(s: string) {
    s != "" && forall c <- s :: IsDigit(c)
  }

  /** The text before the last dash and the text after it; without a dash nothing and everything. */
  function SplitAtLastDash(s: string): (r: (string, string))
    ensures '-' !in r.1
    ensures if '-' in s then s == r.0 + "-" + r.1 else r == ("", s)
  {
    if s == "" then ("", "")
    else if s[|s| - 1] == '-' then (s[..|s| - 1], "")
    else
      var rest := SplitAtLastDash(s[..|s| - 1]);
      assert s == s[..|s| - 1] + [s[|s| - 1]];
      (rest.0, rest.1 + [s[|s| - 1]])
  }

  /** The key is a declared key or a numbered variant of one. */
  predicate IsGenerated(key: string, declared: set<string>) {
    key in declared || (var split := SplitAtLastDash(key); AllDigits(split.1) && split.0 in declared)
  }

  lemma {:induction false} SplitNumbered(base: string, digits: string)
    requires forall c <- digits :: c != '-'
    ensures SplitAtLastDash(base + "-" + digits) == (base, digits)
  {
    var s := base + "-" + digits;
    if digits == "" {
      assert s[..|s| - 1] == base;
    } else {
      var shorter := digits[..|digits| - 1];
      assert digits == shorter + [digits[|digits| - 1]] && s[|s| - 1] == digits[|digits| - 1] && s[|s| - 1] in digits;
      assert s[..|s| - 1] == base + "-" + shorter;
      forall c | c in shorter ensures c != '-' {
        assert c in digits;
      }
      SplitNumbered(base, shorter);
    }
  }

  lemma NumberedIsGenerated(key: string, n: nat, declared: set<string>)
    requires key in declared
    ensures IsGenerated(Numbered(key, n), declared)
  {
    SplitNumbered(key, Decimal(n));
  }

  // ---------- The asset map ----------

  /** One output of a conversion: the source asset, the declared key and the new asset entry. */
  datatype Output<A> = Output(source: string, key: string, asset: A)

  function Declared<A>(outputs: seq<Output<A>>): set<string> {
    if outputs == [] then {} else {outputs[0].key} + Declared(outputs[1..])
  }

  ghost function Stale<A>(keys: set<string>, outputs: seq<Output<A>>): set<string> {
    set key | key in keys && IsGenerated(key, Declared(outputs))
  }

  /** The key is that of an output, or that key with a dash and digits behind it; digits alone stand
      behind an empty key. */
  ghost predicate FormerOutput<A>(key: string, outputs: seq<Output<A>>) {
    exists j, digits :: 0 <= j < |outputs| && FormsKey(key, outputs[j].key, digits)
  }

  ghost predicate FormsKey(key: string, base: string, digits: string) {
    || key == base
    || (digits != "" && (forall c <- digits :: '0' <= c <= '9')
        && (key == base + "-" + digits || (base == "" && key == digits)))
  }

  lemma {:induction false} DeclaredMember<A>(outputs: seq<Output<A>>, key: string)
    ensures key in Declared(outputs) <==> exists j :: 0 <= j < |outputs| && outputs[j].key == key
  {
    if outputs != [] {
      DeclaredMember(outputs[1..], key);
      if j :| 0 <= j < |outputs| && outputs[j].key == key && j > 0 {
        assert outputs[1..][j - 1].key == key;
      }
    }
  }

  lemma {:induction false} NoDashSplits(s: string)
    requires '-' !in s
    ensures SplitAtLastDash(s) == ("", s)
  {
  }

  lemma SplitForms(key: string)
    requires AllDigits(SplitAtLastDash(key).1)
    ensures FormsKey(key, SplitAtLastDash(key).0, SplitAtLastDash(key).1)
  {
  }

  lemma FormsSplit(key: string, base: string, digits: string)
    requires key != base && FormsKey(key, base, digits)
    ensures SplitAtLastDash(key) == (base, digits) && AllDigits(digits)
  {
    if key == base + "-" + digits {
      SplitNumbered(base, digits);
    } else {
      NoDashSplits(key);
    }
  }

  lemma GeneratedIff<A>(key: string, outputs: seq<Output<A>>)
    ensures IsGenerated(key, Declared(outputs)) <==> FormerOutput(key, outputs)
  {
    var split := SplitAtLastDash(key);
    if IsGenerated(key, Declared(outputs)) {
      var base := if key in Declared(outputs) then key else split.0;
      DeclaredMember(outputs, base);
      var j :| 0 <= j < |outputs| && outputs[j].key == base;
      if base != key {
        SplitForms(key);
      }
      assert FormsKey(key, outputs[j].key, split.1);
    }
    if j, digits :| 0 <= j < |outputs| && FormsKey(key, outputs[j].key, digits) {
      DeclaredMember(outputs, outputs[j].key);
      if key != outputs[j].key {
        FormsSplit(key, outputs[j].key, digits);
      }
    }
  }

  /** Converting keeps every asset, unless it overwrites and the key is one that these outputs would
      have been given before. */
  lemma SurvivorsAre<A>(assets: map<string, A>, outputs: seq<Output<A>>, overwrite: bool)
    ensures forall key: string :: key in Survivors(assets, outputs, overwrite)
                          <==> key in assets && !(overwrite && FormerOutput(key, outputs))
    ensures forall key <- Survivors(assets, outputs, overwrite) ::
              Survivors(assets, outputs, overwrite)[key] == assets[key]
  {
    forall key: string ensures IsGenerated(key, Declared(outputs)) <==> FormerOutput(key, outputs) {
      GeneratedIff(key, outputs);
    }
  }

  /** The keys given to the outputs, one after the other. */
  ghost function Assigned<A>(outputs: seq<Output<A>>, taken: set<string>): (r: seq<string>)
    ensures |r| == |outputs|
  {
    if outputs == [] then []
    else
      var key := UniqueKey(outputs[0].key, outputs[0].source, taken);
      [key] + Assigned(outputs[1..], taken + {key})
  }

  /** The map after writing the outputs under the given keys. */
  ghost function Written<A>(assets: map<string, A>, outputs: seq<Output<A>>, keys: seq<string>): map<string, A>
    requires |keys| == |outputs|
    decreases outputs
  {
    if outputs == [] then assets else Written(assets[keys[0] := outputs[0].asset], outputs[1..], keys[1..])
  }

  ghost function Survivors<A>(assets: map<string, A>, outputs: seq<Output<A>>, overwrite: bool): map<string, A> {
    if overwrite then assets - Stale(assets.Keys, outputs) else assets
  }

  ghost function Converted<A>(assets: map<string, A>, outputs: seq<Output<A>>, overwrite: bool): map<string, A> {
    var kept := Survivors(assets, outputs, overwrite);
    Written(kept, outputs, Assigned(outputs, kept.Keys))
  }

  class Item<A> {
    var assets: map<string, A>

    constructor (assets: map<string, A>)
      ensures this.assets == assets
    {
      this.assets := assets;
    }

    method StaleGeneratedKeys(outputs: seq<Output<A>>, taken: set<string>) returns (stale: set<string>)
      ensures stale == Stale(taken * assets.Keys, outputs)
    {
      var declared := Declared(outputs);
      var left := taken;
      stale := {};
      while left != {}
        invariant left <= taken
        invariant stale == Stale((taken - left) * assets.Keys, outputs)
        decreases |left|
      {
        var key :| key in left;
        left := left - {key};
        if key in assets {
          var split := SplitAtLastDash(key);
          if key in declared || (AllDigits(split.1) && split.0 in declared) {
            stale := stale + {key};
          }
        }
      }
      assert (taken - {}) * assets.Keys == taken * assets.Keys;
    }

    /** Removes what an earlier run generated, if asked to, then enters every output under its key. */
    method ConvertAssets(outputs: seq<Output<A>>, overwrite: bool) returns (keys: seq<string>)
      modifies this
      ensures keys == Assigned(outputs, Survivors(old(assets), outputs, overwrite).Keys)
      ensures assets == Converted(old(assets), outputs, overwrite)
    {
      var taken := assets.Keys;
      if overwrite {
        var stale := StaleGeneratedKeys(outputs, taken);
        assert taken * assets.Keys == taken;
        assets := assets - stale;
        taken := taken - stale;
      }
      ghost var kept := assets;
      keys := [];
      for i := 0 to |outputs|
        invariant taken == assets.Keys && |keys| == i
        invariant Assigned(outputs, kept.Keys) == keys + Assigned(outputs[i..], taken)
        invariant Written(kept, outputs, Assigned(outputs, kept.Keys))
                == Written(assets, outputs[i..], Assigned(outputs[i..], taken))
      {
        var key, _ := UniqueAssetKey(outputs[i].key, outputs[i].source, taken);
        assert outputs[i..][1..] == outputs[i + 1..];
        Assoc(keys, [key], Assigned(outputs[i + 1..], taken + {key}));
        assert ([key] + Assigned(outputs[i + 1..], taken + {key}))[1..] == Assigned(outputs[i + 1..], taken + {key});
        keys := keys + [key];
        taken := taken + {key};
        assets := assets[key := outputs[i].asset];
      }
      assert outputs[|outputs|..] == [];
    }
  }

  // ---------- Which keys are in use when an output is named ----------

  /** The key was taken at the start, or one of the first n outputs uses it. */
  ghost predicate InUse<A>(outputs: seq<Output<A>>, taken: set<string>, n: nat, key: string)
    requires n <= |outputs|
    decreases n, 0
  {
    key in taken || exists j :: 0 <= j < n && Uses(outputs, taken, j, key)
  }

  /** The output declares the key, or the key is a number behind those that are in use for the
      declared key of an output that does not re-point its source. */
  ghost predicate Uses<A>(outputs: seq<Output<A>>, taken: set<string>, j: nat, key: string)
    requires j < |outputs|
    decreases j, 2
  {
    var o := outputs[j];
    o.key == key || (o.key != o.source
                     && exists m: nat :: m >= 2 && key == Numbered(o.key, m) && FullBelow(outputs, taken, j, o.key, m))
  }

  ghost predicate FullBelow<A>(outputs: seq<Output<A>>, taken: set<string>, n: nat, base: string, m: nat)
    requires n <= |outputs|
    decreases n, 1
  {
    InUse(outputs, taken, n, base) && forall x: nat :: 2 <= x < m ==> InUse(outputs, taken, n, Numbered(base, x))
  }

  function Entries(keys: seq<string>): (r: set<string>)
    ensures forall key :: key in r <==> key in keys
  {
    if keys == [] then {} else {keys[0]} + Entries(keys[1..])
  }

  /** The taken keys before the n-th output is named. */
  ghost function TakenBy<A>(outputs: seq<Output<A>>, taken: set<string>, n: nat): (r: set<string>)
    requires n <= |outputs|
    ensures forall key :: key in r <==> key in taken || key in Assigned(outputs, taken)[..n]
  {
    taken + Entries(Assigned(outputs, taken)[..n])
  }

  lemma {:induction false} AssignedAt<A>(outputs: seq<Output<A>>, taken: set<string>, n: nat)
    requires n < |outputs|
    ensures Assigned(outputs, taken)[n] == UniqueKey(outputs[n].key, outputs[n].source, TakenBy(outputs, taken, n))
  {
    var key := UniqueKey(outputs[0].key, outputs[0].source, taken);
    var rest := Assigned(outputs[1..], taken + {key});
    assert Assigned(outputs, taken) == [key] + rest;
    if n == 0 {
      assert TakenBy(outputs, taken, 0) == taken;
    } else {
      AssignedAt(outputs[1..], taken + {key}, n - 1);
      assert ([key] + rest)[..n] == [key] + rest[..n - 1];
      assert TakenBy(outputs, taken, n) == TakenBy(outputs[1..], taken + {key}, n - 1);
    }
  }

  /** The key of an output is in use afterwards, and no other key becomes so. */
  lemma UsesNext<A>(outputs: seq<Output<A>>, taken: set<string>, n: nat, key: string)
    requires n < |outputs|
    requires forall k: string :: InUse(outputs, taken, n, k) <==> k in TakenBy(outputs, taken, n)
    ensures InUse(outputs, taken, n, key) || Uses(outputs, taken, n, key)
            <==> InUse(outputs, taken, n, key) || key == UniqueKey(outputs[n].key, outputs[n].source,
                                                                   TakenBy(outputs, taken, n))
  {
    var o, used := outputs[n], TakenBy(outputs, taken, n);
    var unique := UniqueKey(o.key, o.source, used);
    if unique != o.key {
      var r := FirstFree(o.key, used, 2);
      assert FullBelow(outputs, taken, n, o.key, r) && unique == Numbered(o.key, r);
    }
    if m: nat :| m >= 2 && key == Numbered(o.key, m) && o.key != o.source && FullBelow(outputs, taken, n, o.key, m) {
      assert o.key in used;
      var r := FirstFree(o.key, used, 2);
      assert r >= m;
    }
  }

  lemma InUseNext<A>(outputs: seq<Output<A>>, taken: set<string>, n: nat, key: string)
    requires n < |outputs|
    ensures InUse(outputs, taken, n + 1, key) <==> InUse(outputs, taken, n, key) || Uses(outputs, taken, n, key)
  {
  }

  lemma TakenNext<A>(outputs: seq<Output<A>>, taken: set<string>, n: nat)
    requires n < |outputs|
    ensures TakenBy(outputs, taken, n + 1)
            == TakenBy(outputs, taken, n)
            + {UniqueKey(outputs[n].key, outputs[n].source, TakenBy(outputs, taken, n))}
  {
    AssignedAt(outputs, taken, n);
    OneMore(Assigned(outputs, taken), n);
  }

  /** The rule describes exactly the keys that are taken at the start or given to earlier outputs. */
  lemma {:induction false} InUseIff<A>(outputs: seq<Output<A>>, taken: set<string>, n: nat, key: string)
    requires n <= |outputs|
    ensures InUse(outputs, taken, n, key) <==> key in taken || key in Assigned(outputs, taken)[..n]
    decreases n, 0
  {
    if n > 0 {
      InUseIffBefore(outputs, taken, n - 1);
      UsesNext(outputs, taken, n - 1, key);
      InUseNext(outputs, taken, n - 1, key);
      TakenNext(outputs, taken, n - 1);
      assert InUse(outputs, taken, n, key) <==> key in TakenBy(outputs, taken, n);
    }
  }

  lemma {:induction false} InUseIffBefore<A>(outputs: seq<Output<A>>, taken: set<string>, n: nat)
    requires n < |outputs|
    ensures forall key: string :: InUse(outputs, taken, n, key) <==> key in TakenBy(outputs, taken, n)
    decreases n, 1
  {
    forall key: string ensures InUse(outputs, taken, n, key) <==> key in TakenBy(outputs, taken, n) {
      InUseIff(outputs, taken, n, key);
    }
  }

  // ---------- When two outputs share an entry ----------

  ghost predicate Repoints<A>(outputs: seq<Output<A>>, i: nat, key: string) {
    i < |outputs| && outputs[i].key == outputs[i].source == key
  }

  /** An output re-points its source under a key that an earlier output was given: any earlier use
      where the key was free at the start, an earlier re-pointing where it was taken. */
  ghost predicate ClashesAt<A>(outputs: seq<Output<A>>, taken: set<string>, i: nat)
    requires i < |outputs|
  {
    var key := outputs[i].key;
    key == outputs[i].source
    && if key in taken then exists j :: 0 <= j < i && Repoints(outputs, j, key) else InUse(outputs, taken, i, key)
  }

  ghost predicate Clash<A>(outputs: seq<Output<A>>, taken: set<string>) {
    exists i :: 0 <= i < |outputs| && ClashesAt(outputs, taken, i)
  }

  /** An output that does not re-point its source gets a new key; one that does gets a taken key
      exactly when its source is taken. */
  lemma AssignedIsTakenIff<A>(outputs: seq<Output<A>>, taken: set<string>, i: nat)
    requires i < |outputs|
    ensures var key, used := Assigned(outputs, taken)[i], TakenBy(outputs, taken, i);
            key in used <==> outputs[i].key in used && Repoints(outputs, i, key)
  {
    AssignedAt(outputs, taken, i);
  }

  lemma ClashesAtIff<A>(outputs: seq<Output<A>>, taken: set<string>, i: nat)
    requires i < |outputs|
    ensures ClashesAt(outputs, taken, i) <==> Assigned(outputs, taken)[i] in Assigned(outputs, taken)[..i]
  {
    var keys, o := Assigned(outputs, taken), outputs[i];
    AssignedAt(outputs, taken, i);
    AssignedIsTakenIff(outputs, taken, i);
    InUseIff(outputs, taken, i, o.key);
    if o.key == o.source && o.key in taken {
      if j :| 0 <= j < i && Repoints(outputs, j, o.key) {
        AssignedAt(outputs, taken, j);
        assert keys[..i][j] == o.key;
      }
      if o.key in keys[..i] {
        var j :| 0 <= j < i && keys[..i][j] == o.key;
        AssignedIsTakenIff(outputs, taken, j);
        assert Repoints(outputs, j, o.key);
      }
    }
  }

  /** The outputs get different keys if and only if none clashes. */
  lemma KeysDifferIffNoClash<A>(outputs: seq<Output<A>>, taken: set<string>)
    ensures Distinct(Assigned(outputs, taken)) <==> !Clash(outputs, taken)
  {
    var keys := Assigned(outputs, taken);
    forall i | 0 <= i < |outputs| ensures ClashesAt(outputs, taken, i) <==> keys[i] in keys[..i] {
      ClashesAtIff(outputs, taken, i);
    }
    if i :| 0 <= i < |keys| && keys[i] in keys[..i] {
      var j :| 0 <= j < i && keys[..i][j] == keys[i];
    }
    if i, j :| 0 <= i < j < |keys| && keys[i] == keys[j] {
      assert keys[..j][i] == keys[j];
    }
  }

  /** Where every re-pointed source is an asset, as without overwriting, the outputs get different
      keys if and only if no two of them re-point one source. */
  lemma KeptSourcesClashIff<A>(outputs: seq<Output<A>>, taken: set<string>)
    requires forall o <- outputs :: o.key == o.source ==> o.key in taken
    ensures Distinct(Assigned(outputs, taken))
            <==> forall i, j ::
                0 <= i < j < |outputs| && Repoints(outputs, i, outputs[j].key) ==> !Repoints(outputs, j, outputs[j].key)
  {
    KeysDifferIffNoClash(outputs, taken);
    forall j | 0 <= j < |outputs|
      ensures ClashesAt(outputs, taken, j)
              <==> exists i ::
                  0 <= i < j && Repoints(outputs, i, outputs[j].key) && Repoints(outputs, j, outputs[j].key)
    {
      assert outputs[j] in outputs;
    }
  }

  /** Where no declared key is taken, as after overwriting removed them, the outputs get different
      keys if and only if none re-points its source under a key in use. */
  lemma FreedSourcesClashIff<A>(outputs: seq<Output<A>>, taken: set<string>)
    requires forall o <- outputs :: o.key !in taken
    ensures Distinct(Assigned(outputs, taken))
            <==> forall i ::
                0 <= i < |outputs| && Repoints(outputs, i, outputs[i].key) ==> !InUse(outputs, taken, i, outputs[i].key)
  {
    KeysDifferIffNoClash(outputs, taken);
    forall i | 0 <= i < |outputs|
      ensures ClashesAt(outputs, taken, i)
              <==> Repoints(outputs, i, outputs[i].key) && InUse(outputs, taken, i, outputs[i].key)
    {
      assert outputs[i] in outputs;
    }
  }

  lemma OverwritingFreesDeclaredKeys<A>(assets: map<string, A>, outputs: seq<Output<A>>)
    ensures forall o <- outputs :: o.key !in Survivors(assets, outputs, true)
  {
    forall i | 0 <= i < |outputs| ensures outputs[i].key !in Survivors(assets, outputs, true) {
      DeclaredKey(outputs, i);
    }
  }

  lemma {:induction false} DeclaredKey<A>(outputs: seq<Output<A>>, i: nat)
    requires i < |outputs|
    ensures outputs[i].key in Declared(outputs)
  {
    if i > 0 {
      DeclaredKey(outputs[1..], i - 1);
    }
  }

  // ---------- What a run keeps and adds ----------

  /** The output is the last one that was given its key. */
  ghost predicate LastUnder(keys: seq<string>, i: nat) {
    i < |keys| && forall j :: i < j < |keys| ==> keys[j] != keys[i]
  }

  lemma {:induction false} WrittenEntries<A>(assets: map<string, A>, outputs: seq<Output<A>>, keys: seq<string>)
    requires |keys| == |outputs|
    ensures var w := Written(assets, outputs, keys);
            && w.Keys == assets.Keys + Entries(keys)
            && (forall key <- assets :: key !in keys ==> w[key] == assets[key])
            && (forall i: nat :: LastUnder(keys, i) ==> w[keys[i]] == outputs[i].asset)
    decreases outputs
  {
    if outputs != [] {
      var next := assets[keys[0] := outputs[0].asset];
      WrittenEntries(next, outputs[1..], keys[1..]);
      assert keys == [keys[0]] + keys[1..];
      var w := Written(assets, outputs, keys);
      forall i: nat | LastUnder(keys, i) ensures w[keys[i]] == outputs[i].asset {
        if i > 0 {
          assert LastUnder(keys[1..], i - 1);
        } else {
          assert keys[0] !in keys[1..] by {
            forall j | 0 <= j < |keys| - 1 ensures keys[1..][j] != keys[0] {
              assert keys[j + 1] != keys[0];
            }
          }
        }
      }
    }
  }

  /** As many entries as keys means that the keys differ. */
  lemma {:induction false} EntriesSize(keys: seq<string>)
    ensures |Entries(keys)| <= |keys|
    ensures |Entries(keys)| == |keys| <==> Distinct(keys)
  {
    if keys != [] {
      EntriesSize(keys[1..]);
      DistinctParts([keys[0]], keys[1..]);
      assert keys == [keys[0]] + keys[1..];
    }
  }

  /** An output is given a taken key only by re-pointing its source, which no overwriting run has left. */
  lemma GivenTakenKey<A>(assets: map<string, A>, outputs: seq<Output<A>>, overwrite: bool, i: nat)
    requires i < |outputs|
    ensures var kept := Survivors(assets, outputs, overwrite);
            var key := Assigned(outputs, kept.Keys)[i];
            key in kept ==> !overwrite && Repoints(outputs, i, key)
  {
    var taken := Survivors(assets, outputs, overwrite).Keys;
    AssignedIsTakenIff(outputs, taken, i);
    if overwrite {
      OverwritingFreesDeclaredKeys(assets, outputs);
      assert outputs[i] in outputs;
    }
  }

  ghost predicate Repointed<A>(outputs: seq<Output<A>>, key: string) {
    exists i :: 0 <= i < |outputs| && Repoints(outputs, i, key)
  }

  /** A run leaves every surviving asset as it was, except one that an output re-points, and holds for
      each given key the last output under it. Every output has an entry of its own if and only if
      no output clashes. */
  lemma NothingIsLost<A>(assets: map<string, A>, outputs: seq<Output<A>>, overwrite: bool)
    ensures var kept, after := Survivors(assets, outputs, overwrite), Converted(assets, outputs, overwrite);
            var keys := Assigned(outputs, kept.Keys);
            && after.Keys == kept.Keys + Entries(keys)
            && (forall key <- kept :: after[key] == kept[key] || (!overwrite && Repointed(outputs, key)))
            && (forall i: nat :: LastUnder(keys, i) ==> after[keys[i]] == outputs[i].asset)
            && (|Entries(keys)| == |outputs| <==> !Clash(outputs, kept.Keys))
            && (!Clash(outputs, kept.Keys) ==> forall i: nat :: i < |keys| ==> LastUnder(keys, i))
  {
    var kept, after := Survivors(assets, outputs, overwrite), Converted(assets, outputs, overwrite);
    var keys := Assigned(outputs, kept.Keys);
    KeysDifferIffNoClash(outputs, kept.Keys);
    EntriesSize(keys);
    WrittenEntries(kept, outputs, keys);
    forall key | key in kept && key in keys ensures !overwrite && Repointed(outputs, key) {
      var i :| 0 <= i < |keys| && keys[i] == key;
      GivenTakenKey(assets, outputs, overwrite, i);
    }
  }

  /** An asset named "parquet" that is converted into two layers keeps the second one only. */
  lemma LayersOfParquetClash<A>(source: A, a: A, b: A, overwrite: bool)
    ensures var layers := [Output("parquet", "parquet", a), Output("parquet", "parquet", b)];
            var assets := map["parquet" := source];
            && Clash(layers, Survivors(assets, layers, overwrite).Keys)
            && Converted(assets, layers, overwrite) == map["parquet" := b]
  {
    var layers := [Output("parquet", "parquet", a), Output("parquet", "parquet", b)];
    var kept := Survivors(map["parquet" := source], layers, overwrite);
    assert kept.Keys <= {"parquet"};
    TwoRepoint(layers, kept.Keys);
    var keys := ["parquet", "parquet"];
    WrittenEntries(kept, layers, keys);
    assert LastUnder(keys, 1);
    assert Written(kept, layers, keys).Keys == {"parquet"};
  }

  lemma TwoRepoint<A>(outputs: seq<Output<A>>, taken: set<string>)
    requires |outputs| == 2 && Repoints(outputs, 0, "parquet") && Repoints(outputs, 1, "parquet")
    ensures Assigned(outputs, taken) == ["parquet", "parquet"] && Clash(outputs, taken)
  {
    AssignedAt(outputs, taken, 0);
    AssignedAt(outputs, taken, 1);
    var keys := Assigned(outputs, taken);
    assert keys[..1][0] == keys[1];
    ClashesAtIff(outputs, taken, 1);
  }

  function LayersThenUpload<A>(a: A, b: A, c: A): seq<Output<A>> {
    [Output("zip", "parquet", a), Output("zip", "parquet", b),
     Output(Numbered("parquet", 2), Numbered("parquet", 2), c)]
  }

  /** An overwriting run that uploads an asset named "parquet-2" after a conversion into two layers
      loses the second layer, which was numbered into the freed key. */
  lemma UploadOverNumberedLayer<A>(zip: A, old2: A, a: A, b: A, c: A)
    ensures var outputs, second := LayersThenUpload(a, b, c), Numbered("parquet", 2);
            var assets := map["zip" := zip, second := old2];
            && ClashesAt(outputs, Survivors(assets, outputs, true).Keys, 2)
            && Converted(assets, outputs, true) == map["zip" := zip, "parquet" := a, second := c]
  {
    var outputs, second := LayersThenUpload(a, b, c), Numbered("parquet", 2);
    var assets := map["zip" := zip, second := old2];
    LayersThenUploadKeys(a, b, c);
    ZipIsKept(zip, old2, outputs);
    var keys := Assigned(outputs, {"zip"});
    assert Survivors(assets, outputs, true).Keys == {"zip"};
    ClashesAtIff(outputs, {"zip"}, 2);
    assert keys[..2][1] == second;
    SecondIsReplaced(map["zip" := zip], outputs, second);
  }

  lemma SecondIsReplaced<A>(kept: map<string, A>, outputs: seq<Output<A>>, second: string)
    requires |outputs| == 3 && second != "parquet"
    ensures Written(kept, outputs, ["parquet", second, second])
            == kept["parquet" := outputs[0].asset][second := outputs[2].asset]
  {
    var keys := ["parquet", second, second];
    WrittenEntries(kept, outputs, keys);
    assert LastUnder(keys, 0) && LastUnder(keys, 2);
  }

  lemma LayersThenUploadKeys<A>(a: A, b: A, c: A)
    ensures Assigned(LayersThenUpload(a, b, c), {"zip"}) == ["parquet", Numbered("parquet", 2), Numbered("parquet", 2)]
    ensures Numbered("parquet", 2) != "parquet" && Numbered("parquet", 2) != "zip"
    ensures Declared(LayersThenUpload(a, b, c)) == {"parquet", Numbered("parquet", 2)}
  {
    var outputs, second := LayersThenUpload(a, b, c), Numbered("parquet", 2);
    var two, one := outputs[1..], outputs[2..];
    NumberedIsNotZip();
    assert two[1..] == one && one[1..] == [];
    var taken := {"zip"} + {"parquet"};
    assert UniqueKey("parquet", "zip", taken) == second;
    assert Assigned(one, taken + {second}) == [second] + [];
    assert Assigned(two, taken) == [second] + Assigned(one, taken + {second});
    assert Assigned(outputs, {"zip"}) == ["parquet"] + Assigned(two, taken);
    assert Declared(one) == {second} + {} && Declared(two) == {"parquet"} + Declared(one);
  }

  lemma ZipIsKept<A>(zip: A, old2: A, outputs: seq<Output<A>>)
    requires Declared(outputs) == {"parquet", Numbered("parquet", 2)}
    ensures Survivors(map["zip" := zip, Numbered("parquet", 2) := old2], outputs, true) == map["zip" := zip]
  {
    NumberedIsNotZip();
    ZipIsNotGenerated(Declared(outputs));
    OneIsFreed("zip", Numbered("parquet", 2), zip, old2, outputs);
  }

  lemma OneIsFreed<A>(kept: string, freed: string, x: A, y: A, outputs: seq<Output<A>>)
    requires freed in Declared(outputs) && !IsGenerated(kept, Declared(outputs))
    ensures Survivors(map[kept := x, freed := y], outputs, true) == map[kept := x]
  {
    var after := Survivors(map[kept := x, freed := y], outputs, true);
    assert forall key :: key in after <==> key == kept;
  }

  lemma NumberedIsNotZip()
    ensures Numbered("parquet", 2) != "zip" && Numbered("parquet", 2) != "parquet"
  {
    NumberedIsLonger("parquet", 2);
    assert |Numbered("parquet", 2)| > 3;
  }

  lemma ZipIsNotGenerated(declared: set<string>)
    requires "zip" !in declared
    ensures !IsGenerated("zip", declared)
  {
    NoNumberInZip();
  }

  lemma NoNumberInZip()
    ensures !AllDigits(SplitAtLastDash("zip").1)
  {
    assert '-' !in "zip";
    assert "zip"[0] == 'z';
    assert 'z' in "zip" && !IsDigit('z');
  }

  // ---------- Repeating a run ----------

  lemma {:induction false} AssignedAreGenerated<A>(outputs: seq<Output<A>>, taken: set<string>, declared: set<string>)
    requires Declared(outputs) <= declared
    ensures forall key <- Assigned(outputs, taken) :: IsGenerated(key, declared)
  {
    if outputs != [] {
      var first := outputs[0];
      var key := UniqueKey(first.key, first.source, taken);
      AssignedAreGenerated(outputs[1..], taken + {key}, declared);
      if key != first.key {
        NumberedIsGenerated(first.key, FirstFree(first.key, taken, 2), declared);
      }
    }
  }

  lemma {:induction false} WrittenOutside<A>(assets: map<string, A>, outputs: seq<Output<A>>, keys: seq<string>)
    requires |keys| == |outputs|
    ensures var w := Written(assets, outputs, keys);
            && assets.Keys <= w.Keys <= assets.Keys + Entries(keys)
            && (forall key <- assets :: key !in keys ==> w[key] == assets[key])
    decreases outputs
  {
    if outputs != [] {
      WrittenOutside(assets[keys[0] := outputs[0].asset], outputs[1..], keys[1..]);
      assert keys == [keys[0]] + keys[1..];
    }
  }

  /** Repeating an overwriting run with the same outputs leaves the assets unchanged: everything the
      first run entered is recognised and removed, nothing else is, and the same keys are given again. */
  lemma RepeatedOverwriteIsStable<A>(assets: map<string, A>, outputs: seq<Output<A>>)
    ensures Converted(Converted(assets, outputs, true), outputs, true) == Converted(assets, outputs, true)
  {
    var kept, after := Survivors(assets, outputs, true), Converted(assets, outputs, true);
    var keys := Assigned(outputs, kept.Keys);
    AssignedAreGenerated(outputs, kept.Keys, Declared(outputs));
    WrittenOutside(kept, outputs, keys);
    assert Survivors(after, outputs, true) == kept;
  }
}
