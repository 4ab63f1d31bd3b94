/** The build-side part of `ExtensionReloaderImpl`: the per-instance table of
    chunk hashes, the classification of a rebuild into "background or content
    changed" and "only a page changed", the decision to signal the running
    extension, the merge of injected assets and the webpack version check. */
module ExtensionReloader {
  import opened Wrappers
  import opened Strings
  import opened Typings
  import opened MiddlewareInjector

  /** The result of `_whatChanged`. */
  datatype Changes = Changes(contentOrBgChanged: bool, onlyPageChanged: bool)

  // ---------------------------------------------------------------------
  // The chunk version table

  /** `hash !== this._chunkVersions[name]`: a chunk is changed when its name
      has no stored hash (JavaScript `undefined`) or a different one. */
  predicate IsChanged(table: map<string, string>, c: Chunk) {
    c.name !in table || table[c.name] != c.hash
  }

  /** The table after recording each chunk's hash in list order. */
  function Recorded(table: map<string, string>, chunks: seq<Chunk>): map<string, string>
  {
    if chunks == [] then table
    else
      var c := chunks[|chunks| - 1];
      Recorded(table, chunks[..|chunks| - 1])[c.name := c.hash]
  }

  /** The chunks the `filter` in `_whatChanged` keeps: each one is compared
      with the table as it stands just before that chunk is recorded. */
  function ChangedChunks(table: map<string, string>, chunks: seq<Chunk>): (r: seq<Chunk>)
    ensures |r| <= |chunks|
    ensures forall c :: c in r ==> c in chunks
  {
    if chunks == [] then []
    else
      var init, c := chunks[..|chunks| - 1], chunks[|chunks| - 1];
      ChangedChunks(table, init) + (if IsChanged(Recorded(table, init), c) then [c] else [])
  }

  // ---------------------------------------------------------------------
  // Classification

  /** Role membership as `_whatChanged` tests it: `some(x => x === name)` for
      an array, `name === role` otherwise (never true for `null`). */
  predicate PlaysRole(name: string, role: Role) {
    match role
    case Null => false
    case Name(n) => name == n
    case Names(ns) => name in ns
  }

  predicate IsBgOrContent(name: string, e: Entries) {
    name == e.background || PlaysRole(name, e.contentScript)
  }

  /** `changedChunks.some(...)` for the background/content test. */
  function SomeBgOrContent(changed: seq<Chunk>, e: Entries): (r: bool)
    ensures r <==> exists i :: 0 <= i < |changed| && IsBgOrContent(changed[i].name, e)
  {
    if changed == [] then false
    else IsBgOrContent(changed[0].name, e) || SomeBgOrContent(changed[1..], e)
  }

  /** `changedChunks.some(...)` for the extension-page test. */
  function SomePage(changed: seq<Chunk>, e: Entries): (r: bool)
    ensures r <==> exists i :: 0 <= i < |changed| && PlaysRole(changed[i].name, e.extensionPage)
  {
    if changed == [] then false
    else PlaysRole(changed[0].name, e.extensionPage) || SomePage(changed[1..], e)
  }

  /** The two flags of `_whatChanged`; the page test is made only when no
      background or content chunk changed. */
  function Classify(changed: seq<Chunk>, e: Entries): (r: Changes)
    ensures !(r.contentOrBgChanged && r.onlyPageChanged)
    ensures r.contentOrBgChanged <==>
      exists c :: c in changed && (c.name == e.background || PlaysRole(c.name, e.contentScript))
    ensures r.onlyPageChanged <==>
      !r.contentOrBgChanged && exists c :: c in changed && PlaysRole(c.name, e.extensionPage)
  {
    var contentOrBgChanged := SomeBgOrContent(changed, e);
    var onlyPageChanged := !contentOrBgChanged && SomePage(changed, e);
    Changes(contentOrBgChanged, onlyPageChanged)
  }

  /** The reload scope of a rebuild, stated on sets of names: background or
      content dominates, a page change counts only without one. */
  datatype ChangeScope = NoChange | BackgroundOrContent | PageOnly

  function ScopeOf(changedNames: set<string>, e: Entries): ChangeScope {
    if e.background in changedNames || RoleNames(e.contentScript) * changedNames != {} then
      BackgroundOrContent
    else if RoleNames(e.extensionPage) * changedNames != {} then
      PageOnly
    else
      NoChange
  }

  function NamesOf(chunks: seq<Chunk>): set<string> {
    set c | c in chunks :: c.name
  }

  // ---------------------------------------------------------------------
  // The trigger decision in `afterEmit`

  /** `if (contentOrBgChanged || onlyPageChanged) this._triggerer(onlyPageChanged)`:
      `Some(onlyPageChanged)` when the triggerer is called, `None` when not. */
  function TriggerArgument(flags: Changes): (r: Option<bool>)
    ensures r.Some? <==> flags.contentOrBgChanged || flags.onlyPageChanged
    ensures r.Some? ==> r.value == flags.onlyPageChanged
  {
    if flags.contentOrBgChanged || flags.onlyPageChanged then Some(flags.onlyPageChanged) else None
  }

  /** The triggerer's argument for each scope: no call for no relevant change,
      `false` (a full extension reload) for background or content, `true`
      (reload the page only) for a page-only change. */
  function SignalFor(scope: ChangeScope): Option<bool> {
    match scope
    case NoChange => None
    case BackgroundOrContent => Some(false)
    case PageOnly => Some(true)
  }

  /** The flag computation agrees with the set-based scope: the triggerer is
      called exactly for a relevant change, and with `onlyPageChanged` true
      exactly when only pages changed. */
  lemma TriggerMatchesScope(changed: seq<Chunk>, e: Entries)
    ensures TriggerArgument(Classify(changed, e)) == SignalFor(ScopeOf(NamesOf(changed), e))
  {
    var names := NamesOf(changed);
    var flags := Classify(changed, e);
    if flags.contentOrBgChanged {
      var c :| c in changed && (c.name == e.background || PlaysRole(c.name, e.contentScript));
      assert c.name in names;
      if c.name != e.background {
        assert c.name in RoleNames(e.contentScript) * names;
      }
    } else {
      forall n | n in names
        ensures n != e.background && !PlaysRole(n, e.contentScript)
      {
        var c :| c in changed && c.name == n;
      }
      assert RoleNames(e.contentScript) * names == {};
      if flags.onlyPageChanged {
        var c :| c in changed && PlaysRole(c.name, e.extensionPage);
        assert c.name in RoleNames(e.extensionPage) * names;
      } else {
        forall n | n in names
          ensures !PlaysRole(n, e.extensionPage)
        {
          var c :| c in changed && c.name == n;
        }
        assert RoleNames(e.extensionPage) * names == {};
      }
    }
  }

  // ---------------------------------------------------------------------
  // Properties of the version table

  /** No two chunks of the list share a name. */
  predicate DistinctNames(chunks: seq<Chunk>) {
    forall i, j :: 0 <= i < j < |chunks| ==> chunks[i].name != chunks[j].name
  }

  /** Chunks of the list that share a name also share a hash. */
  predicate ConsistentHashes(chunks: seq<Chunk>) {
    forall i, j :: 0 <= i < |chunks| && 0 <= j < |chunks| && chunks[i].name == chunks[j].name ==>
      chunks[i].hash == chunks[j].hash
  }

  /** After recording, a name holds the hash of the last chunk with that name. */
  lemma {:induction false} RecordedLastHash(table: map<string, string>, chunks: seq<Chunk>, i: nat)
    requires i < |chunks|
    requires forall j :: i < j < |chunks| ==> chunks[j].name != chunks[i].name
    ensures chunks[i].name in Recorded(table, chunks)
    ensures Recorded(table, chunks)[chunks[i].name] == chunks[i].hash
  {
    if i < |chunks| - 1 {
      RecordedLastHash(table, chunks[..|chunks| - 1], i);
    }
  }

  /** Recording leaves the entry of a name no chunk carries as it was. */
  lemma {:induction false} RecordedKeepsOthers(table: map<string, string>, chunks: seq<Chunk>, name: string)
    requires forall j :: 0 <= j < |chunks| ==> chunks[j].name != name
    ensures name in Recorded(table, chunks) <==> name in table
    ensures name in table ==> Recorded(table, chunks)[name] == table[name]
  {
    if chunks != [] {
      RecordedKeepsOthers(table, chunks[..|chunks| - 1], name);
    }
  }

  /** A name all of whose chunks carry hash `h` is recorded with `h`. */
  lemma {:induction false} RecordedUniformHash(table: map<string, string>, chunks: seq<Chunk>, name: string, h: string)
    requires exists j :: 0 <= j < |chunks| && chunks[j].name == name
    requires forall j :: 0 <= j < |chunks| && chunks[j].name == name ==> chunks[j].hash == h
    ensures name in Recorded(table, chunks) && Recorded(table, chunks)[name] == h
  {
    var n := |chunks| - 1;
    if chunks[n].name != name {
      var j :| 0 <= j < |chunks| && chunks[j].name == name;
      assert chunks[..n][j] == chunks[j];
      RecordedUniformHash(table, chunks[..n], name, h);
    }
  }

  /** Recording only adds names: the table afterwards holds the old names and
      the chunks' names, and no other. */
  lemma {:induction false} RecordedKeys(table: map<string, string>, chunks: seq<Chunk>)
    ensures Recorded(table, chunks).Keys == table.Keys + NamesOf(chunks)
  {
    if chunks != [] {
      var init, c := chunks[..|chunks| - 1], chunks[|chunks| - 1];
      RecordedKeys(table, init);
      assert chunks == init + [c];
      assert NamesOf(chunks) == NamesOf(init) + {c.name};
    }
  }

  lemma ChangedChunksSnoc(table: map<string, string>, chunks: seq<Chunk>, c: Chunk)
    ensures ChangedChunks(table, chunks + [c]) ==
      ChangedChunks(table, chunks) + (if IsChanged(Recorded(table, chunks), c) then [c] else [])
  {
    assert (chunks + [c])[..|chunks|] == chunks;
  }

  lemma {:induction false} ChangedChunksComplete(table: map<string, string>, chunks: seq<Chunk>, i: nat)
    requires i < |chunks|
    requires IsChanged(Recorded(table, chunks[..i]), chunks[i])
    ensures chunks[i] in ChangedChunks(table, chunks)
  {
    var n := |chunks| - 1;
    var init := chunks[..n];
    assert chunks == init + [chunks[n]];
    ChangedChunksSnoc(table, init, chunks[n]);
    if i < n {
      assert init[..i] == chunks[..i] && init[i] == chunks[i];
      ChangedChunksComplete(table, init, i);
    }
  }

  lemma {:induction false} ChangedChunksSound(table: map<string, string>, chunks: seq<Chunk>, c: Chunk)
    requires c in ChangedChunks(table, chunks)
    ensures exists i :: 0 <= i < |chunks| && chunks[i] == c && IsChanged(Recorded(table, chunks[..i]), c)
  {
    var n := |chunks| - 1;
    var init := chunks[..n];
    assert chunks == init + [chunks[n]];
    ChangedChunksSnoc(table, init, chunks[n]);
    if c in ChangedChunks(table, init) {
      ChangedChunksSound(table, init, c);
      var i :| 0 <= i < |init| && init[i] == c && IsChanged(Recorded(table, init[..i]), c);
      assert init[..i] == chunks[..i] && chunks[i] == c;
    } else {
      assert chunks[n] == c && IsChanged(Recorded(table, chunks[..n]), c);
    }
  }

  /** A chunk is reported changed iff, at some position of the list, its hash
      differs from the one stored just before that position was recorded. */
  lemma ChangedChunksMembers(table: map<string, string>, chunks: seq<Chunk>, c: Chunk)
    ensures c in ChangedChunks(table, chunks) <==>
      exists i :: 0 <= i < |chunks| && chunks[i] == c && IsChanged(Recorded(table, chunks[..i]), c)
  {
    if c in ChangedChunks(table, chunks) {
      ChangedChunksSound(table, chunks, c);
    }
    if exists i :: 0 <= i < |chunks| && chunks[i] == c && IsChanged(Recorded(table, chunks[..i]), c) {
      var i :| 0 <= i < |chunks| && chunks[i] == c && IsChanged(Recorded(table, chunks[..i]), c);
      ChangedChunksComplete(table, chunks, i);
    }
  }

  /** On a fresh instance (empty table) every chunk of a list with distinct
      names is reported changed. */
  lemma {:induction false} FirstCallAllChanged(chunks: seq<Chunk>)
    requires DistinctNames(chunks)
    ensures ChangedChunks(map[], chunks) == chunks
  {
    if chunks != [] {
      var n := |chunks| - 1;
      var init := chunks[..n];
      FirstCallAllChanged(init);
      RecordedKeepsOthers(map[], init, chunks[n].name);
      assert init + [chunks[n]] == chunks;
    }
  }

  /** The first build after the plugin is created signals a full reload
      whenever the background chunk is among the chunks. */
  lemma FirstBuildSignalsFullReload(chunks: seq<Chunk>, e: Entries)
    requires DistinctNames(chunks)
    requires exists i :: 0 <= i < |chunks| && chunks[i].name == e.background
    ensures TriggerArgument(Classify(ChangedChunks(map[], chunks), e)) == Some(false)
  {
    FirstCallAllChanged(chunks);
    var i :| 0 <= i < |chunks| && chunks[i].name == e.background;
    assert chunks[i] in ChangedChunks(map[], chunks);
  }

  /** A content chunk and a page chunk changing together: background or
      content wins and the page flag stays down. */
  lemma PrecedenceExample()
    ensures var e := Entries("bg", Names(["content"]), Names(["opts"]));
      Classify([Chunk("content", "h2", []), Chunk("opts", "h2", [])], e) == Changes(true, false)
  {
    var changed := [Chunk("content", "h2", []), Chunk("opts", "h2", [])];
    assert changed[0] in changed;
  }

  /** A page chunk changing alone raises only the page flag. */
  lemma PageOnlyExample()
    ensures var e := Entries("bg", Names(["content"]), Names(["opts"]));
      Classify([Chunk("opts", "h2", [])], e) == Changes(false, true)
  {
    var changed := [Chunk("opts", "h2", [])];
    assert changed[0] in changed;
  }

  lemma {:induction false} SecondCallPrefixUnchanged(table: map<string, string>, chunks: seq<Chunk>, k: nat)
    requires ConsistentHashes(chunks)
    requires k <= |chunks|
    ensures ChangedChunks(Recorded(table, chunks), chunks[..k]) == []
  {
    if k > 0 {
      var t := Recorded(table, chunks);
      var prefix := chunks[..k - 1];
      SecondCallPrefixUnchanged(table, chunks, k - 1);
      assert chunks[..k][..k - 1] == prefix;
      var c := chunks[k - 1];
      RecordedUniformHash(table, chunks, c.name, c.hash);
      if exists j :: 0 <= j < k - 1 && chunks[j].name == c.name {
        var j :| 0 <= j < k - 1 && chunks[j].name == c.name;
        assert prefix[j] == chunks[j];
        RecordedUniformHash(t, prefix, c.name, c.hash);
      } else {
        RecordedKeepsOthers(t, prefix, c.name);
      }
    }
  }

  /** Calling `_whatChanged` again with the same (name, hash) list reports no
      change and so raises neither flag. */
  lemma SecondCallUnchanged(table: map<string, string>, chunks: seq<Chunk>, e: Entries)
    requires ConsistentHashes(chunks)
    ensures ChangedChunks(Recorded(table, chunks), chunks) == []
    ensures Classify(ChangedChunks(Recorded(table, chunks), chunks), e) == Changes(false, false)
  {
    SecondCallPrefixUnchanged(table, chunks, |chunks|);
    assert chunks[..|chunks|] == chunks;
  }

  /** In the rebuild, the chunk at position `i` is compared with the hash the
      previous build recorded for it, which differs only at position `k`. */
  lemma RehashedStep(table: map<string, string>, chunks: seq<Chunk>, next: seq<Chunk>, k: nat, h: string, i: nat)
    requires DistinctNames(chunks)
    requires k < |chunks| && h != chunks[k].hash
    requires next == chunks[k := chunks[k].(hash := h)]
    requires i < |chunks|
    ensures IsChanged(Recorded(Recorded(table, chunks), next[..i]), next[i]) <==> i == k
  {
    var t := Recorded(table, chunks);
    var c := next[i];
    var prefix := next[..i];
    forall j | 0 <= j < |prefix| ensures prefix[j].name != c.name {
      assert prefix[j].name == chunks[j].name;
    }
    RecordedKeepsOthers(t, prefix, c.name);
    RecordedLastHash(table, chunks, i);
    assert Recorded(t, prefix)[c.name] == chunks[i].hash;
  }

  /** The chunk at position `i` compares as changed during the pass. */
  predicate ChangedAt(t: map<string, string>, xs: seq<Chunk>, i: nat)
    requires i < |xs|
  {
    IsChanged(Recorded(t, xs[..i]), xs[i])
  }

  /** When position `k` is the only one whose chunk compares as changed, the
      filter keeps exactly that chunk. */
  lemma {:induction false} ChangedOnlyAt(t: map<string, string>, xs: seq<Chunk>, k: nat, m: nat)
    requires k < |xs| && m <= |xs|
    requires forall i: nat | i < |xs| :: ChangedAt(t, xs, i) <==> i == k
    ensures ChangedChunks(t, xs[..m]) == if m <= k then [] else [xs[k]]
  {
    if m > 0 {
      var prev := xs[..m - 1];
      ChangedOnlyAt(t, xs, k, m - 1);
      assert xs[..m] == prev + [xs[m - 1]];
      ChangedChunksSnoc(t, prev, xs[m - 1]);
      assert ChangedAt(t, xs, m - 1) <==> m - 1 == k;
    }
  }

  lemma RehashedReportsOne(table: map<string, string>, chunks: seq<Chunk>, next: seq<Chunk>, k: nat, h: string)
    requires DistinctNames(chunks)
    requires k < |chunks| && h != chunks[k].hash
    requires next == chunks[k := chunks[k].(hash := h)]
    ensures ChangedChunks(Recorded(table, chunks), next) == [next[k]]
  {
    var t := Recorded(table, chunks);
    forall i: nat | i < |next|
      ensures ChangedAt(t, next, i) <==> i == k
    {
      RehashedStep(table, chunks, next, k, h, i);
    }
    ChangedOnlyAt(t, next, k, |next|);
    assert next[..|next|] == next;
  }

  /** When a rebuild changes the hash of exactly one chunk, that chunk alone is
      reported and the triggerer is called as that chunk's role dictates. */
  lemma OneRehashedChunk(table: map<string, string>, chunks: seq<Chunk>, k: nat, h: string, e: Entries)
    requires DistinctNames(chunks)
    requires k < |chunks| && h != chunks[k].hash
    ensures var next := chunks[k := chunks[k].(hash := h)];
      && ChangedChunks(Recorded(table, chunks), next) == [next[k]]
      && TriggerArgument(Classify(ChangedChunks(Recorded(table, chunks), next), e))
         == SignalFor(ScopeOf({chunks[k].name}, e))
  {
    var next := chunks[k := chunks[k].(hash := h)];
    RehashedReportsOne(table, chunks, next, k, h);
    TriggerMatchesScope([next[k]], e);
    assert NamesOf([next[k]]) == {chunks[k].name};
  }

  // ---------------------------------------------------------------------
  // `_isWebpackGToEV4`

  /** `version` is truthy and `parseInt(version.split(".")[0], 10) >= 4`
      (`NaN >= 4` is false). */
  function IsWebpackGToEV4(version: Option<string>): (r: bool)
    ensures version.None? || version == Some("") ==> !r
  {
    if version.Some? && version.value != "" then
      match ParseInt(BeforeFirst(version.value, '.'))
      case Some(major) => major >= 4
      case None => false
    else false
  }

  /** For a version "M.rest" the check holds exactly when the major number M
      is at least 4 (a numeric, not a textual, comparison: "10.0" passes). */
  lemma WebpackMajorAtLeast4(major: nat, rest: string)
    ensures IsWebpackGToEV4(Some(Decimal(major) + "." + rest)) <==> major >= 4
  {
    var d := Decimal(major);
    assert '.' !in d by {
      forall i | 0 <= i < |d| ensures d[i] != '.' {
        assert IsDigit(d[i]);
      }
    }
    BeforeFirstOf(d, '.', rest);
    assert d + "." + rest == d + ['.'] + rest;
    ParseIntDecimal(major, []);
    assert d + [] == d;
  }

  // ---------------------------------------------------------------------
  // `afterOptimizeChunkAssets`: merging the injected sources

  /** `comp.assets = { ...comp.assets, ...injected }`: injected entries win,
      every other asset keeps its source. */
  function MergeAssets(assets: map<string, Source>, injected: map<string, Source>): (r: map<string, Source>)
    ensures r.Keys == assets.Keys + injected.Keys
    ensures forall f | f in injected :: r[f] == injected[f]
    ensures forall f | f in assets && f !in injected :: r[f] == assets[f]
  {
    assets + injected
  }

  /** After the merge, an injected asset is the watcher followed by its old
      source (which dropping the watcher's pieces recovers), and every other
      asset (any non-`.js` file in particular) is unchanged. */
  lemma MergedAsset(assets: map<string, Source>, chunks: seq<Chunk>, e: Entries, watcher: Source,
                    injected: map<string, Source>, f: string)
    requires injected.Keys == InjectedFiles(chunks, e)
    requires forall g | g in injected :: injected[g] == Wrapped(watcher, assets, g)
    requires f in assets
    ensures var merged := MergeAssets(assets, injected);
      && f in merged
      && (f in InjectedFiles(chunks, e) ==>
            |merged[f]| == |watcher| + |assets[f]|
            && merged[f][..|watcher|] == watcher && merged[f][|watcher|..] == assets[f])
      && (f !in InjectedFiles(chunks, e) ==> merged[f] == assets[f])
      && (!IsScript(f) ==> merged[f] == assets[f])
  {
  }

  /** Every chunk whose change can make `_whatChanged` signal a reload also
      receives the watcher. */
  lemma ReloadRolesAreInjected(name: string, e: Entries)
    requires IsBgOrContent(name, e) || PlaysRole(name, e.extensionPage)
    ensures MatchBgOrContentOrPage(name, e)
  {
  }

  /** The converse fails: for a string role the injector tests for a
      substring while `_whatChanged` tests for equality, so a chunk named
      "content" gets the watcher under `contentScript: "content-script"`
      but its changes never raise a flag. */
  lemma SubstringMatchQuirk()
    ensures var e := Entries("background", Name("content-script"), Null);
      && MatchBgOrContentOrPage("content", e)
      && !IsBgOrContent("content", e) && !PlaysRole("content", e.extensionPage)
  {
    var s := "content-script";
    assert s[0..7] == "content";
    assert OccursAt(s, "content", 0);
  }

  // ---------------------------------------------------------------------
  // The plugin instance

  class ExtensionReloaderImpl {
    /** `_chunkVersions`: chunk name to the hash last seen for it. */
    var chunkVersions: map<string, string>

    constructor ()
      ensures chunkVersions == map[]
    {
      chunkVersions := map[];
    }

    /** `_whatChanged`: record every chunk's hash and classify the chunks whose
        hash differs from the one stored just before it was recorded. */
    method WhatChanged(chunks: seq<Chunk>, e: Entries) returns (flags: Changes)
      modifies this
      ensures chunkVersions == Recorded(old(chunkVersions), chunks)
      ensures flags == Classify(ChangedChunks(old(chunkVersions), chunks), e)
    {
      var changed: seq<Chunk> := [];
      var i := 0;
      while i < |chunks|
        invariant 0 <= i <= |chunks|
        invariant chunkVersions == Recorded(old(chunkVersions), chunks[..i])
        invariant changed == ChangedChunks(old(chunkVersions), chunks[..i])
      {
        var c := chunks[i];
        var isNew := IsChanged(chunkVersions, c);
        chunkVersions := chunkVersions[c.name := c.hash];
        if isNew {
          changed := changed + [c];
        }
        assert chunks[..i + 1][..i] == chunks[..i];
        i := i + 1;
      }
      assert chunks[..|chunks|] == chunks;
      flags := Classify(changed, e);
    }

    /** The `afterEmit` handler up to the asynchronous call: the argument the
        triggerer is called with, or `None` when it is not called. */
    method AfterEmit(chunks: seq<Chunk>, e: Entries) returns (trigger: Option<bool>)
      modifies this
      ensures chunkVersions == Recorded(old(chunkVersions), chunks)
      ensures trigger == SignalFor(ScopeOf(NamesOf(ChangedChunks(old(chunkVersions), chunks)), e))
    {
      var flags := WhatChanged(chunks, e);
      TriggerMatchesScope(ChangedChunks(old(chunkVersions), chunks), e);
      trigger := TriggerArgument(flags);
    }
  }
}
