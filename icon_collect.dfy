/**
 * The aggregation half of the preload-icon generator: counting the icon
 * references of the raw match lines, grouping names by prefix, extracting one
 * subset per prefix in sorted order, and locating the installed packages.
 */
module IconCollect {

  import opened Common
  import opened Ordering
  import opened IconScan

  // ---------------------------------------------------------------------------
  // The `icons` count map
  // ---------------------------------------------------------------------------

  /** The icon a raw line contributes to `icons`: its extracted reference, unless that has the `svg` prefix. */
  function IconOf(line: string): (r: Option<string>)
    ensures r.Some? ==> IsIconName(r.value) && PrefixOf(r.value) != "svg"
    ensures r.Some? ==> ExtractIcon(line) == r
    ensures ExtractIcon(line).None? ==> r.None?
    ensures ExtractIcon(line).Some? && PrefixOf(ExtractIcon(line).value) != "svg" ==> r == ExtractIcon(line)
  {
    match ExtractIcon(line)
    case None => None
    case Some(icon) => if PrefixOf(icon) == "svg" then None else Some(icon)
  }

  /** The number of lines whose extracted, non-`svg` icon is `icon`. */
  function Occurrences(lines: seq<string>, icon: string): nat
    decreases |lines|
  {
    if |lines| == 0 then 0
    else Occurrences(lines[..|lines| - 1], icon) + (if IconOf(lines[|lines| - 1]) == Some(icon) then 1 else 0)
  }

  /** An icon is counted at all exactly when some line contributes it. */
  lemma {:induction false} OccurrencesPositive(lines: seq<string>, icon: string)
    ensures Occurrences(lines, icon) > 0 <==> exists i :: 0 <= i < |lines| && IconOf(lines[i]) == Some(icon)
    decreases |lines|
  {
    if |lines| > 0 {
      var n := |lines| - 1;
      var init := lines[..n];
      OccurrencesPositive(init, icon);
      if Occurrences(lines, icon) > 0 {
        if IconOf(lines[n]) == Some(icon) {
          assert 0 <= n < |lines| && IconOf(lines[n]) == Some(icon);
        } else {
          var i :| 0 <= i < |init| && IconOf(init[i]) == Some(icon);
          assert lines[i] == init[i];
        }
      }
      if exists i :: 0 <= i < |lines| && IconOf(lines[i]) == Some(icon) {
        var i :| 0 <= i < |lines| && IconOf(lines[i]) == Some(icon);
        if i < n {
          assert init[i] == lines[i];
        }
      }
    }
  }

  /** Counting the config matches and then the factory matches adds up. */
  lemma {:induction false} OccurrencesAppend(a: seq<string>, b: seq<string>, icon: string)
    ensures Occurrences(a + b, icon) == Occurrences(a, icon) + Occurrences(b, icon)
    decreases |b|
  {
    if |b| == 0 {
      assert a + b == a;
    } else {
      assert (a + b)[..|a + b| - 1] == a + b[..|b| - 1];
      assert (a + b)[|a + b| - 1] == b[|b| - 1];
      OccurrencesAppend(a, b[..|b| - 1], icon);
    }
  }

  /**
   * `icons` counts the icons of `lines` and `keys` lists its keys once each:
   * a key is present exactly when some line contributes it, its count is the
   * number of lines that do, and no key has the `svg` prefix.
   */
  ghost predicate Counted(lines: seq<string>, icons: map<string, nat>, keys: seq<string>)
  {
    && (forall k :: k in icons <==> Occurrences(lines, k) > 0)
    && (forall k :: k in icons ==> icons[k] == Occurrences(lines, k))
    && (forall k :: k in icons ==> IsIconName(k) && PrefixOf(k) != "svg")
    && Distinct(keys) && (forall k :: k in keys <==> k in icons)
  }

  /**
   * The loop over `rawMatches` (generate-preload-config-icons.mjs, lines 123-130): `icons` maps each icon to the
   * number of lines contributing it, and `keys` lists its keys once each, as
   * `icons.keys()` yields them. Their order is not stated: everything that
   * follows sorts what it takes from them.
   */
  method CountIcons(rawMatches: seq<string>) returns (icons: map<string, nat>, keys: seq<string>)
    ensures Counted(rawMatches, icons, keys)
  {
    icons, keys := map[], [];
    for i := 0 to |rawMatches|
      invariant Counted(rawMatches[..i], icons, keys)
    {
      assert rawMatches[..i + 1] == rawMatches[..i] + [rawMatches[i]];
      var line := rawMatches[i];
      var icon := ExtractIcon(line);
      if icon.None? {
        CountedSkip(rawMatches[..i], line, icons, keys);
        continue;
      }
      var prefix := PrefixOf(icon.value);
      if prefix == "svg" {
        CountedSkip(rawMatches[..i], line, icons, keys);
        continue;
      }
      var k := icon.value;
      CountedAdd(rawMatches[..i], line, icons, keys, k);
      if k !in icons {
        keys := keys + [k];
      }
      icons := icons[k := (if k in icons then icons[k] else 0) + 1];
    }
    assert rawMatches[..|rawMatches|] == rawMatches;
  }

  /** A line contributing nothing leaves the count as it was. */
  lemma CountedSkip(prev: seq<string>, line: string, icons: map<string, nat>, keys: seq<string>)
    requires Counted(prev, icons, keys) && IconOf(line).None?
    ensures Counted(prev + [line], icons, keys)
  {
    forall x ensures Occurrences(prev + [line], x) == Occurrences(prev, x) {
      OccurrencesSnoc(prev, line, x);
    }
  }

  /** A line contributing `k` adds one to its count, and adds `k` to the keys when it is new. */
  lemma CountedAdd(prev: seq<string>, line: string, icons: map<string, nat>, keys: seq<string>, k: string)
    requires Counted(prev, icons, keys) && IconOf(line) == Some(k)
    ensures Counted(prev + [line], icons[k := (if k in icons then icons[k] else 0) + 1],
                    if k in icons then keys else keys + [k])
  {
    forall x ensures Occurrences(prev + [line], x) == Occurrences(prev, x) + (if x == k then 1 else 0) {
      OccurrencesSnoc(prev, line, x);
    }
    if k !in icons {
      DistinctSnoc(keys, k);
    }
  }

  /** One more line adds one to the count of the icon it contributes and nothing to any other. */
  lemma OccurrencesSnoc(prev: seq<string>, line: string, icon: string)
    ensures Occurrences(prev + [line], icon) == Occurrences(prev, icon) + (if IconOf(line) == Some(icon) then 1 else 0)
  {
    var lines := prev + [line];
    assert lines[..|lines| - 1] == prev;
  }

  /** Appending an element that is not there yet keeps a sequence free of repeats. */
  lemma DistinctSnoc(keys: seq<string>, k: string)
    requires Distinct(keys) && k !in keys
    ensures Distinct(keys + [k])
  {
    var s := keys + [k];
    forall i, j | 0 <= i < j < |s| ensures s[i] != s[j] {
      if j == |keys| {
        assert s[i] == keys[i];
      }
    }
  }

  // ---------------------------------------------------------------------------
  // The `iconsByPrefix` grouping
  // ---------------------------------------------------------------------------

  /**
   * `byPrefix` groups `keys`: each key's name is filed under its prefix, and
   * every filed name comes from some key.
   */
  ghost predicate Grouped(keys: seq<string>, byPrefix: map<string, seq<string>>)
  {
    (forall k :: k in keys ==> PrefixOf(k) in byPrefix && NameOf(k) in byPrefix[PrefixOf(k)]) &&
    (forall p, n :: p in byPrefix && n in byPrefix[p] ==>
       exists k :: k in keys && PrefixOf(k) == p && NameOf(k) == n)
  }

  /** Every prefix holds a non-empty collection of names without repeats, as a `Set` does. */
  ghost predicate SetShaped(byPrefix: map<string, seq<string>>)
  {
    forall p :: p in byPrefix ==> Distinct(byPrefix[p]) && |byPrefix[p]| > 0
  }

  /**
   * The loop over `icons.keys()` (lines 132-137 of the generator). Each prefix's names are
   * kept as a `Set` keeps them (no repeats), and `prefixes` lists the map's
   * keys once each. As with `keys`, their order is not stated.
   */
  method GroupByPrefix(keys: seq<string>) returns (byPrefix: map<string, seq<string>>, prefixes: seq<string>)
    ensures Grouped(keys, byPrefix) && SetShaped(byPrefix)
    ensures Distinct(prefixes) && forall p :: p in prefixes <==> p in byPrefix
  {
    byPrefix, prefixes := map[], [];
    for i := 0 to |keys|
      invariant Grouped(keys[..i], byPrefix) && SetShaped(byPrefix)
      invariant Distinct(prefixes) && forall p :: p in prefixes <==> p in byPrefix
    {
      assert forall k :: k in keys[..i + 1] <==> k in keys[..i] || k == keys[i];
      var prefix, name := PrefixOf(keys[i]), NameOf(keys[i]);
      if prefix !in byPrefix {
        byPrefix := byPrefix[prefix := []];
        prefixes := prefixes + [prefix];
      }
      if name !in byPrefix[prefix] {
        byPrefix := byPrefix[prefix := byPrefix[prefix] + [name]];
      }
    }
    assert keys[..|keys|] == keys;
  }

  /**
   * For keys that are icon names, `byPrefix` holds `name` under `prefix`
   * exactly when `prefix:name` is a key.
   */
  lemma GroupingExact(keys: seq<string>, byPrefix: map<string, seq<string>>, prefix: string, name: string)
    requires Grouped(keys, byPrefix)
    requires forall k :: k in keys ==> IsIconName(k)
    ensures (prefix in byPrefix && name in byPrefix[prefix]) <==> (prefix + ":" + name in keys)
  {
    if prefix in byPrefix && name in byPrefix[prefix] {
      var k :| k in keys && PrefixOf(k) == prefix && NameOf(k) == name;
      SplitJoin(k);
    }
    if prefix + ":" + name in keys {
      IconNameParts(prefix, name);
    }
  }

  /** The parts of an icon name written as `prefix:name` are `prefix` and `name`. */
  lemma IconNameParts(prefix: string, name: string)
    requires IsIconName(prefix + ":" + name)
    ensures PrefixOf(prefix + ":" + name) == prefix && NameOf(prefix + ":" + name) == name
  {
    var k := prefix + ":" + name;
    assert k[|prefix|] == ':';
    assert IndexOf(k, ':') == |prefix|;
    assert k[..|prefix|] == prefix;
    var rest := k[|prefix| + 1..];
    assert rest == name;
    assert forall t :: 0 <= t < |rest| ==> rest[t] == k[|prefix| + 1 + t] && IsIconChar(k[|prefix| + 1 + t]);
    assert IndexOf(rest, ':') == |rest|;
  }

  // ---------------------------------------------------------------------------
  // The `collections` build
  // ---------------------------------------------------------------------------

  /**
   * What one iteration of the generator's loop at lines 144-154 produces for `prefix`:
   * the subset `getIcons` extracts for its sorted names, or the error thrown
   * when the icon-set file is missing or the subset is falsy.
   */
  function SubsetFor<IconSet, Subset>(prefix: string, names: seq<string>, iconSets: map<string, IconSet>,
                                      getIcons: (IconSet, seq<string>) -> Option<Subset>): (r: Result<Subset, GenError>)
    ensures r.Err? <==> prefix !in iconSets || getIcons(iconSets[prefix], Sort(names)).None?
    ensures r.Err? ==> r.error == (if prefix !in iconSets then MissingIconSet(prefix) else EmptySubset(prefix))
    ensures r.Ok? ==> Some(r.value) == getIcons(iconSets[prefix], Sort(names))
  {
    if prefix !in iconSets then Err(MissingIconSet(prefix))
    else
      match getIcons(iconSets[prefix], Sort(names))
      case None => Err(EmptySubset(prefix))
      case Some(subset) => Ok(subset)
  }

  /**
   * The generator's loop at lines 144-154: one subset per prefix, in the order given; the
   * first prefix that fails stops the loop and its error is the result.
   */
  method BuildCollections<IconSet, Subset>(prefixes: seq<string>, byPrefix: map<string, seq<string>>,
                                           iconSets: map<string, IconSet>,
                                           getIcons: (IconSet, seq<string>) -> Option<Subset>)
    returns (r: Result<seq<Subset>, GenError>)
    requires forall p :: p in prefixes ==> p in byPrefix
    ensures r.Ok? ==> (
      && |r.value| == |prefixes|
      && forall t :: 0 <= t < |prefixes| ==>
           SubsetFor(prefixes[t], byPrefix[prefixes[t]], iconSets, getIcons) == Ok(r.value[t]))
    ensures r.Err? ==> (exists t :: (
      && 0 <= t < |prefixes|
      && SubsetFor(prefixes[t], byPrefix[prefixes[t]], iconSets, getIcons) == Err(r.error)
      && forall u :: 0 <= u < t ==> SubsetFor(prefixes[u], byPrefix[prefixes[u]], iconSets, getIcons).Ok?))
  {
    var collections := [];
    for i := 0 to |prefixes|
      invariant |collections| == i
      invariant forall t :: 0 <= t < i ==>
        SubsetFor(prefixes[t], byPrefix[prefixes[t]], iconSets, getIcons) == Ok(collections[t])
    {
      var prefix := prefixes[i];
      var names := Sort(byPrefix[prefix]);
      if prefix !in iconSets {
        return Err(MissingIconSet(prefix));
      }
      var subset := getIcons(iconSets[prefix], names);
      if subset.None? {
        return Err(EmptySubset(prefix));
      }
      collections := collections + [subset.value];
    }
    return Ok(collections);
  }

  // ---------------------------------------------------------------------------
  // findPnpmPackageDir over a listing of node_modules/.pnpm
  // ---------------------------------------------------------------------------

  datatype DirEntry = DirEntry(name: string, isDirectory: bool)

  /** An entry `findPnpmPackageDir(prefixWithPlus)` accepts: a directory named `<prefixWithPlus>@...`. */
  predicate IsPackageDir(e: DirEntry, prefixWithPlus: string)
  {
    e.isDirectory && StartsWith(e.name, prefixWithPlus + "@")
  }

  /** `.filter(...).map((e) => e.name)` */
  function Candidates(entries: seq<DirEntry>, prefixWithPlus: string): (names: seq<string>)
    ensures forall n :: n in names <==> exists e :: e in entries && IsPackageDir(e, prefixWithPlus) && e.name == n
    decreases |entries|
  {
    if entries == [] then []
    else
      var rest := Candidates(entries[1..], prefixWithPlus);
      assert forall e :: e in entries <==> e == entries[0] || e in entries[1..];
      if IsPackageDir(entries[0], prefixWithPlus) then [entries[0].name] + rest else rest
  }

  /**
   * findPnpmPackageDir: the least, in sort order, name of a matching
   * directory, or the "not installed" error when none matches. The joined
   * path is left to the caller.
   */
  function FindPnpmPackageDir(entries: seq<DirEntry>, prefixWithPlus: string): (r: Result<string, GenError>)
    ensures r.Err? <==> forall e :: e in entries ==> !IsPackageDir(e, prefixWithPlus)
    ensures r.Err? ==> r.error == MissingPackageDir(prefixWithPlus)
    ensures r.Ok? ==> exists e :: e in entries && IsPackageDir(e, prefixWithPlus) && e.name == r.value
    ensures r.Ok? ==> forall e :: e in entries && IsPackageDir(e, prefixWithPlus) ==> LexLe(r.value, e.name)
  {
    var names := Candidates(entries, prefixWithPlus);
    var sorted := Sort(names);
    assert forall e :: e in entries && IsPackageDir(e, prefixWithPlus) ==> e.name in names;
    if |sorted| == 0 then
      assert names == [];
      Err(MissingPackageDir(prefixWithPlus))
    else
      assert sorted[0] in multiset(names);
      assert sorted[0] in names;
      forall e | e in entries && IsPackageDir(e, prefixWithPlus) ensures LexLe(sorted[0], e.name) {
        assert e.name in multiset(names);
        SortedHeadLeast(sorted, e.name);
      }
      Ok(sorted[0])
  }

  // ---------------------------------------------------------------------------
  // One run of the generator, up to the text it writes
  // ---------------------------------------------------------------------------

  /** What a successful run hands to the emitter and prints in its summary line. */
  datatype Generated<Subset> = Generated(prefixes: seq<string>, iconCount: nat, collections: seq<Subset>)

  /** The icon an input line contributes has prefix `prefix`. */
  predicate ContributesPrefix(line: string, prefix: string)
  {
    IconOf(line).Some? && PrefixOf(IconOf(line).value) == prefix
  }

  /** `prefix` is the prefix of an icon some line of `lines` contributes. */
  ghost predicate Referenced(lines: seq<string>, prefix: string)
  {
    exists line :: line in lines && ContributesPrefix(line, prefix)
  }

  /**
   * `names` holds, once each, the names `prefix` is referenced with in
   * `lines`: the contents of the prefix's `Set`, in some order.
   */
  ghost predicate ReferencedNames(lines: seq<string>, prefix: string, names: seq<string>)
  {
    Distinct(names) && forall n :: n in names <==> Occurrences(lines, prefix + ":" + n) > 0
  }

  /** The distinct icons the lines contribute: the keys of `icons`. */
  ghost function ContributedIcons(lines: seq<string>): set<string>
  {
    set i | 0 <= i < |lines| && IconOf(lines[i]).Some? :: IconOf(lines[i]).value
  }

  /**
   * `subset` is what `getIcons` extracts from the icon set of `prefix` for the
   * sorted names `prefix` is referenced with in `lines`.
   */
  ghost predicate ExtractedFor<IconSet, Subset>(lines: seq<string>, prefix: string, iconSets: map<string, IconSet>,
                                                getIcons: (IconSet, seq<string>) -> Option<Subset>, subset: Subset)
  {
    exists names :: ReferencedNames(lines, prefix, names) && SubsetFor(prefix, names, iconSets, getIcons) == Ok(subset)
  }

  /** Every referenced prefix has an icon-set file and a non-empty subset. */
  ghost predicate AllResolve<IconSet, Subset>(lines: seq<string>, iconSets: map<string, IconSet>,
                                              getIcons: (IconSet, seq<string>) -> Option<Subset>)
  {
    forall p, names :: Referenced(lines, p) && ReferencedNames(lines, p, names) ==>
      SubsetFor(p, names, iconSets, getIcons).Ok?
  }

  /**
   * `e` is the error of a referenced prefix that fails, and every referenced
   * prefix sorting before it succeeds: the error the loop throws first.
   */
  ghost predicate FirstFailure<IconSet, Subset>(lines: seq<string>, iconSets: map<string, IconSet>,
                                                getIcons: (IconSet, seq<string>) -> Option<Subset>, e: GenError)
  {
    exists p, names ::
      && Referenced(lines, p) && ReferencedNames(lines, p, names)
      && SubsetFor(p, names, iconSets, getIcons) == Err(e)
      && forall q, qnames :: Referenced(lines, q) && ReferencedNames(lines, q, qnames) && LexLe(q, p) && q != p ==>
           SubsetFor(q, qnames, iconSets, getIcons).Ok?
  }

  /**
   * What a successful run emits for `rawMatches`: the prefixes of the icons the
   * lines contribute, sorted, once each and never `svg`; for each one the
   * subset extracted for its referenced names; and, for the summary line,
   * the number of distinct icons counted.
   */
  ghost predicate Emits<IconSet, Subset>(rawMatches: seq<string>, iconSets: map<string, IconSet>,
                                         getIcons: (IconSet, seq<string>) -> Option<Subset>, g: Generated<Subset>)
  {
    && Sorted(g.prefixes) && Distinct(g.prefixes)
    && "svg" !in g.prefixes
    && |g.collections| == |g.prefixes|
    && (forall p :: p in g.prefixes <==> Referenced(rawMatches, p))
    && (forall t :: 0 <= t < |g.prefixes| ==> ExtractedFor(rawMatches, g.prefixes[t], iconSets, getIcons, g.collections[t]))
    && g.iconCount == |ContributedIcons(rawMatches)|
  }

  /**
   * The aggregation of the generator (lines 123-154): count, group, sort and
   * extract. It succeeds exactly when every referenced prefix resolves, and
   * then every such prefix gets one subset, in sorted order, extracted for the
   * sorted names referenced under it. Otherwise the error is that of the first
   * failing prefix in sorted order.
   */
  method Aggregate<IconSet, Subset>(rawMatches: seq<string>, iconSets: map<string, IconSet>,
                                    getIcons: (IconSet, seq<string>) -> Option<Subset>)
    returns (r: Result<Generated<Subset>, GenError>)
    ensures r.Ok? <==> AllResolve(rawMatches, iconSets, getIcons)
    ensures r.Ok? ==> Emits(rawMatches, iconSets, getIcons, r.value)
    ensures r.Err? ==> FirstFailure(rawMatches, iconSets, getIcons, r.error)
    ensures r.Err? ==> r.error.MissingIconSet? || r.error.EmptySubset?
  {
    var icons, keys := CountIcons(rawMatches);
    var byPrefix, prefixOrder := GroupByPrefix(keys);
    var prefixes := Sort(prefixOrder);
    GroupingFacts(rawMatches, icons, keys, byPrefix, prefixOrder);
    var built := BuildCollections(prefixes, byPrefix, iconSets, getIcons);
    if built.Err? {
      ghost var t :| && 0 <= t < |prefixes|
                     && SubsetFor(prefixes[t], byPrefix[prefixes[t]], iconSets, getIcons) == Err(built.error)
                     && forall u :: 0 <= u < t ==> SubsetFor(prefixes[u], byPrefix[prefixes[u]], iconSets, getIcons).Ok?;
      FailureIsFirst(rawMatches, byPrefix, prefixes, iconSets, getIcons, t);
      return Err(built.error);
    }
    SuccessResolves(rawMatches, byPrefix, prefixes, iconSets, getIcons, built.value);
    IconCountExact(rawMatches, icons, keys);
    return Ok(Generated(prefixes, |icons|, built.value));
  }

  /** Both package directories are installed. */
  predicate PackagesFound(pnpmEntries: seq<DirEntry>)
  {
    FindPnpmPackageDir(pnpmEntries, "@iconify+json").Ok? && FindPnpmPackageDir(pnpmEntries, "@iconify+utils").Ok?
  }

  /**
   * The script up to the text it writes: the two package directories must
   * exist (lines 80-81), both searches must succeed (lines 111-121), and the
   * aggregation must find every icon set and a subset in each. The first of
   * these to fail decides the error.
   */
  method Generate<IconSet, Subset>(pnpmEntries: seq<DirEntry>, configRun: SearchRun, factoryRun: SearchRun,
                                   iconSets: map<string, IconSet>,
                                   getIcons: (IconSet, seq<string>) -> Option<Subset>)
    returns (r: Result<Generated<Subset>, GenError>)
    ensures FindPnpmPackageDir(pnpmEntries, "@iconify+json").Err? ==> r == Err(MissingPackageDir("@iconify+json"))
    ensures FindPnpmPackageDir(pnpmEntries, "@iconify+json").Ok? && FindPnpmPackageDir(pnpmEntries, "@iconify+utils").Err?
            ==> r == Err(MissingPackageDir("@iconify+utils"))
    ensures PackagesFound(pnpmEntries) && RawMatches(configRun, factoryRun).Err?
            ==> r == Err(RawMatches(configRun, factoryRun).error)
    ensures r.Ok? <==>
      && PackagesFound(pnpmEntries)
      && RawMatches(configRun, factoryRun).Ok?
      && AllResolve(RawMatches(configRun, factoryRun).value, iconSets, getIcons)
    ensures r.Ok? ==> Emits(RawMatches(configRun, factoryRun).value, iconSets, getIcons, r.value)
    ensures PackagesFound(pnpmEntries) && RawMatches(configRun, factoryRun).Ok? && r.Err?
            ==> FirstFailure(RawMatches(configRun, factoryRun).value, iconSets, getIcons, r.error)
  {
    var jsonDir := FindPnpmPackageDir(pnpmEntries, "@iconify+json");
    if jsonDir.Err? {
      return Err(jsonDir.error);
    }
    var utilsDir := FindPnpmPackageDir(pnpmEntries, "@iconify+utils");
    if utilsDir.Err? {
      return Err(utilsDir.error);
    }
    var raw := RawMatches(configRun, factoryRun);
    if raw.Err? {
      return Err(raw.error);
    }
    r := Aggregate(raw.value, iconSets, getIcons);
  }

  /** A prefix is grouped exactly when some raw line contributes an icon with it; `svg` never is. */
  lemma PrefixesExact(lines: seq<string>, icons: map<string, nat>, keys: seq<string>,
                      byPrefix: map<string, seq<string>>, p: string)
    requires Counted(lines, icons, keys)
    requires Grouped(keys, byPrefix) && SetShaped(byPrefix)
    ensures p in byPrefix <==> Referenced(lines, p)
    ensures p in byPrefix ==> p != "svg"
  {
    if p in byPrefix {
      var n := byPrefix[p][0];
      assert n in byPrefix[p];
      var k :| k in keys && PrefixOf(k) == p && NameOf(k) == n;
      OccurrencesPositive(lines, k);
      var i :| 0 <= i < |lines| && IconOf(lines[i]) == Some(k);
      assert ContributesPrefix(lines[i], p);
    }
    if Referenced(lines, p) {
      var line :| line in lines && ContributesPrefix(line, p);
      var k := IconOf(line).value;
      var i :| 0 <= i < |lines| && lines[i] == line;
      OccurrencesPositive(lines, k);
      assert k in keys;
    }
  }

  /** The names grouped under a prefix are exactly those it is referenced with. */
  lemma NamesExact(lines: seq<string>, icons: map<string, nat>, keys: seq<string>,
                   byPrefix: map<string, seq<string>>, p: string)
    requires Counted(lines, icons, keys)
    requires Grouped(keys, byPrefix) && p in byPrefix
    ensures forall n :: n in byPrefix[p] <==> Occurrences(lines, p + ":" + n) > 0
  {
    forall n ensures n in byPrefix[p] <==> Occurrences(lines, p + ":" + n) > 0 {
      GroupingExact(keys, byPrefix, p, n);
    }
  }

  /** What the grouping and the sort of its prefixes hand to the collections loop. */
  lemma GroupingFacts(lines: seq<string>, icons: map<string, nat>, keys: seq<string>,
                      byPrefix: map<string, seq<string>>, prefixOrder: seq<string>)
    requires Counted(lines, icons, keys)
    requires Grouped(keys, byPrefix) && SetShaped(byPrefix)
    requires Distinct(prefixOrder) && forall p :: p in prefixOrder <==> p in byPrefix
    ensures Sorted(Sort(prefixOrder)) && Distinct(Sort(prefixOrder)) && "svg" !in Sort(prefixOrder)
    ensures forall p :: p in Sort(prefixOrder) <==> p in byPrefix
    ensures forall p :: p in byPrefix <==> Referenced(lines, p)
    ensures forall p :: p in byPrefix ==> ReferencedNames(lines, p, byPrefix[p])
  {
    var prefixes := Sort(prefixOrder);
    forall p ensures p in prefixes <==> p in prefixOrder {
      assert p in prefixes <==> p in multiset(prefixes);
    }
    SortKeepsDistinct(prefixOrder);
    forall p ensures p in byPrefix <==> Referenced(lines, p)
             ensures p in byPrefix ==> p != "svg" {
      PrefixesExact(lines, icons, keys, byPrefix, p);
    }
    forall p | p in byPrefix ensures ReferencedNames(lines, p, byPrefix[p]) {
      NamesExact(lines, icons, keys, byPrefix, p);
    }
  }

  /** `names` sequences holding the same names without repeats sort the same way. */
  lemma ReferencedNamesSortUnique(lines: seq<string>, p: string, a: seq<string>, b: seq<string>)
    requires ReferencedNames(lines, p, a) && ReferencedNames(lines, p, b)
    ensures Sort(a) == Sort(b)
  {
    forall x ensures multiset(a)[x] == multiset(b)[x] {
      DistinctCountsOne(a, x);
      DistinctCountsOne(b, x);
      assert x in a <==> Occurrences(lines, p + ":" + x) > 0;
      assert x in b <==> Occurrences(lines, p + ":" + x) > 0;
      assert x in a <==> x in multiset(a);
      assert x in b <==> x in multiset(b);
    }
    assert multiset(a) == multiset(b);
    SortDeterministic(a, b);
  }

  /** Once the collections loop succeeds, every referenced prefix resolves and is emitted. */
  lemma SuccessResolves<IconSet, Subset>(lines: seq<string>, byPrefix: map<string, seq<string>>, prefixes: seq<string>,
                                         iconSets: map<string, IconSet>,
                                         getIcons: (IconSet, seq<string>) -> Option<Subset>, built: seq<Subset>)
    requires forall p :: p in prefixes <==> p in byPrefix
    requires forall p :: p in byPrefix <==> Referenced(lines, p)
    requires forall p :: p in byPrefix ==> ReferencedNames(lines, p, byPrefix[p])
    requires |built| == |prefixes|
    requires forall t :: 0 <= t < |prefixes| ==>
               SubsetFor(prefixes[t], byPrefix[prefixes[t]], iconSets, getIcons) == Ok(built[t])
    ensures AllResolve(lines, iconSets, getIcons)
    ensures forall t :: 0 <= t < |prefixes| ==> ExtractedFor(lines, prefixes[t], iconSets, getIcons, built[t])
  {
    forall p, names | Referenced(lines, p) && ReferencedNames(lines, p, names)
      ensures SubsetFor(p, names, iconSets, getIcons).Ok?
    {
      var t :| 0 <= t < |prefixes| && prefixes[t] == p;
      ReferencedNamesSortUnique(lines, p, names, byPrefix[p]);
    }
    forall t | 0 <= t < |prefixes| ensures ExtractedFor(lines, prefixes[t], iconSets, getIcons, built[t]) {
      assert ReferencedNames(lines, prefixes[t], byPrefix[prefixes[t]]);
    }
  }

  /** A string sorting strictly before another does not follow it. */
  lemma LexLtNotGe(q: string, p: string)
    requires LexLe(q, p) && q != p
    ensures !LexLe(p, q)
  {
    if LexLe(p, q) {
      LexLeAntisymmetric(q, p);
    }
  }

  /** The error the collections loop stops with, at `t`, is that of the first failing referenced prefix. */
  lemma FailureIsFirst<IconSet, Subset>(lines: seq<string>, byPrefix: map<string, seq<string>>, prefixes: seq<string>,
                                        iconSets: map<string, IconSet>,
                                        getIcons: (IconSet, seq<string>) -> Option<Subset>, t: nat)
    requires Sorted(prefixes) && t < |prefixes|
    requires forall p :: p in prefixes <==> p in byPrefix
    requires forall p :: p in byPrefix <==> Referenced(lines, p)
    requires forall p :: p in byPrefix ==> ReferencedNames(lines, p, byPrefix[p])
    requires SubsetFor(prefixes[t], byPrefix[prefixes[t]], iconSets, getIcons).Err?
    requires forall u :: 0 <= u < t ==> SubsetFor(prefixes[u], byPrefix[prefixes[u]], iconSets, getIcons).Ok?
    ensures FirstFailure(lines, iconSets, getIcons, SubsetFor(prefixes[t], byPrefix[prefixes[t]], iconSets, getIcons).error)
    ensures !AllResolve(lines, iconSets, getIcons)
  {
    var p := prefixes[t];
    forall q, qnames | Referenced(lines, q) && ReferencedNames(lines, q, qnames) && LexLe(q, p) && q != p
      ensures SubsetFor(q, qnames, iconSets, getIcons).Ok?
    {
      EarlierResolves(lines, byPrefix, prefixes, iconSets, getIcons, t, q, qnames);
    }
    assert ReferencedNames(lines, p, byPrefix[p]) && Referenced(lines, p);
  }

  /** A referenced prefix sorting before the one at `t` sits before `t`, so the loop resolved it. */
  lemma EarlierResolves<IconSet, Subset>(lines: seq<string>, byPrefix: map<string, seq<string>>, prefixes: seq<string>,
                                         iconSets: map<string, IconSet>,
                                         getIcons: (IconSet, seq<string>) -> Option<Subset>, t: nat,
                                         q: string, qnames: seq<string>)
    requires Sorted(prefixes) && t < |prefixes|
    requires forall p :: p in prefixes <==> p in byPrefix
    requires forall p :: p in byPrefix <==> Referenced(lines, p)
    requires forall p :: p in byPrefix ==> ReferencedNames(lines, p, byPrefix[p])
    requires forall u :: 0 <= u < t ==> SubsetFor(prefixes[u], byPrefix[prefixes[u]], iconSets, getIcons).Ok?
    requires Referenced(lines, q) && ReferencedNames(lines, q, qnames)
    requires LexLe(q, prefixes[t]) && q != prefixes[t]
    ensures SubsetFor(q, qnames, iconSets, getIcons).Ok?
  {
    assert q in prefixes;
    var u :| 0 <= u < |prefixes| && prefixes[u] == q;
    LexLtNotGe(q, prefixes[t]);
    assert u < t;
    ReferencedNamesSortUnique(lines, q, qnames, byPrefix[q]);
  }

  /** `icons.size` is the number of distinct icons the lines contribute. */
  lemma IconCountExact(lines: seq<string>, icons: map<string, nat>, keys: seq<string>)
    requires Counted(lines, icons, keys)
    ensures |icons| == |ContributedIcons(lines)|
  {
    forall k ensures k in icons.Keys <==> k in ContributedIcons(lines) {
      OccurrencesPositive(lines, k);
      if k in ContributedIcons(lines) {
        var i :| 0 <= i < |lines| && IconOf(lines[i]).Some? && IconOf(lines[i]).value == k;
        assert IconOf(lines[i]) == Some(k);
      }
    }
    assert icons.Keys == ContributedIcons(lines);
  }
}
