/** `extractEntries`: derive the plugin's role entries from webpack's entry
    keys, its output `filename` and the parsed extension manifest. */
module Manifest {
  import opened Wrappers
  import opened Strings
  import opened Typings

  /** `manifest.background`; `scripts` is `None` when absent or null. */
  datatype Background = Background(scripts: Option<seq<string>>)

  /** One element of `manifest.content_scripts`. */
  datatype ContentScriptBlock = ContentScriptBlock(js: seq<string>)

  /** The parsed manifest, reduced to the members `extractEntries` reads. */
  datatype ExtensionManifest = ExtensionManifest(
    background: Option<Background>,
    contentScripts: Option<seq<ContentScriptBlock>>)

  /** The three errors `extractEntries` throws. */
  datatype EntryError =
    | FilenameRequired        // `throw new Error()`: output filename falsy
    | BgScriptManifestRequired // TypeError: the manifest has no background.scripts
    | BgScriptEntryError       // TypeError: no entry key names a background script

  const NamePlaceholder: string := "[name]"

  /** `filename.replace("[name]", "")`: the part of an output file name that is
      not the entry name, e.g. ".bundle.js" for "[name].bundle.js". */
  function ToRemove(filename: string): (r: string)
    ensures !Contains(filename, NamePlaceholder) ==> r == filename
    ensures Contains(filename, NamePlaceholder) ==>
      var i := IndexOf(filename, NamePlaceholder).value;
      i <= |r| && r[..i] + NamePlaceholder + r[i..] == filename
  {
    RemoveFirstInverse(filename, NamePlaceholder);
    ReplaceFirst(filename, NamePlaceholder, "")
  }

  /** `script.replace(toRemove, "")`. */
  function Strip(script: string, toRemove: string): string {
    ReplaceFirst(script, toRemove, "")
  }

  /** The entry key names one of the background scripts once stripped. */
  predicate NamesBackgroundScript(key: string, scripts: seq<string>, toRemove: string) {
    exists s :: s in scripts && Strip(s, toRemove) == key
  }

  /** `key` is the first of `keys` that names a background script. */
  predicate IsFirstBackgroundEntry(keys: seq<string>, scripts: seq<string>, toRemove: string, key: string) {
    exists i :: 0 <= i < |keys| && keys[i] == key
      && NamesBackgroundScript(keys[i], scripts, toRemove)
      && (forall j :: 0 <= j < i ==> !NamesBackgroundScript(keys[j], scripts, toRemove))
  }

  /** `Object.keys(webpackEntry).find(...)`: the first key, in key order, that
      names a background script. */
  function FindBackgroundEntry(keys: seq<string>, scripts: seq<string>, toRemove: string): (r: Option<string>)
    ensures r.Some? ==> IsFirstBackgroundEntry(keys, scripts, toRemove, r.value)
    ensures r.None? <==> forall k :: k in keys ==> !NamesBackgroundScript(k, scripts, toRemove)
  {
    if keys == [] then None
    else if NamesBackgroundScript(keys[0], scripts, toRemove) then Some(keys[0])
    else
      var r := FindBackgroundEntry(keys[1..], scripts, toRemove);
      if r.Some? then
        ghost var i :| 0 <= i < |keys| - 1 && keys[1..][i] == r.value
          && NamesBackgroundScript(keys[1..][i], scripts, toRemove)
          && forall j :: 0 <= j < i ==> !NamesBackgroundScript(keys[1..][j], scripts, toRemove);
        assert keys[i + 1] == r.value;
        r
      else r
  }

  /** At most one key is the first to name a background script, so `find`
      has one possible answer. */
  lemma FirstBackgroundEntryUnique(keys: seq<string>, scripts: seq<string>, toRemove: string, key: string)
    ensures IsFirstBackgroundEntry(keys, scripts, toRemove, key) <==>
      FindBackgroundEntry(keys, scripts, toRemove) == Some(key)
  {
    var r := FindBackgroundEntry(keys, scripts, toRemove);
    if IsFirstBackgroundEntry(keys, scripts, toRemove, key) {
      var i :| 0 <= i < |keys| && keys[i] == key
        && NamesBackgroundScript(keys[i], scripts, toRemove)
        && (forall j :: 0 <= j < i ==> !NamesBackgroundScript(keys[j], scripts, toRemove));
      assert keys[i] in keys;
      var i' :| 0 <= i' < |keys| && keys[i'] == r.value
        && NamesBackgroundScript(keys[i'], scripts, toRemove)
        && (forall j :: 0 <= j < i' ==> !NamesBackgroundScript(keys[j], scripts, toRemove));
      // Each index is the first that names a script, so neither precedes the other.
      assert !(i < i') && !(i' < i);
    }
  }

  /** `js.map(strip).filter(item => item === key)`. */
  function MatchingItems(key: string, js: seq<string>, toRemove: string): (r: seq<string>)
    ensures forall x :: x in r ==> x == key
  {
    if js == [] then []
    else (if Strip(js[0], toRemove) == key then [key] else []) + MatchingItems(key, js[1..], toRemove)
  }

  /** `content_scripts.map(({ js }) => ...)`, flattened, for one entry key. */
  function EntriesForKey(key: string, blocks: seq<ContentScriptBlock>, toRemove: string): (r: seq<string>)
    ensures forall x :: x in r ==> x == key
  {
    if blocks == [] then []
    else MatchingItems(key, blocks[0].js, toRemove) + EntriesForKey(key, blocks[1..], toRemove)
  }

  /** `flatMapDeep(Object.keys(webpackEntry), ...)`: key by key, then block by
      block, every content script that names the key once stripped. */
  function ContentEntries(keys: seq<string>, blocks: seq<ContentScriptBlock>, toRemove: string): (r: seq<string>)
    ensures forall x :: x in r ==> x in keys
  {
    if keys == [] then []
    else EntriesForKey(keys[0], blocks, toRemove) + ContentEntries(keys[1..], blocks, toRemove)
  }

  /** `extractEntries` after the manifest has been read and parsed. */
  function ExtractEntries(entryKeys: seq<string>, filename: Option<string>, manifest: ExtensionManifest)
    : (r: Result<Entries, EntryError>)
    ensures r == Err(FilenameRequired) <==> filename.None? || filename.value == ""
    ensures r == Err(BgScriptManifestRequired) <==>
      filename.Some? && filename.value != "" &&
      (manifest.background.None? || manifest.background.value.scripts.None?)
    ensures r == Err(BgScriptEntryError) <==>
      filename.Some? && filename.value != "" &&
      manifest.background.Some? && manifest.background.value.scripts.Some? &&
      ((forall k :: k in entryKeys ==>
          !NamesBackgroundScript(k, manifest.background.value.scripts.value, ToRemove(filename.value)))
       || FindBackgroundEntry(entryKeys, manifest.background.value.scripts.value,
                              ToRemove(filename.value)) == Some(""))
    ensures r.Ok? ==>
      && filename.Some? && manifest.background.Some? && manifest.background.value.scripts.Some?
      && IsFirstBackgroundEntry(entryKeys, manifest.background.value.scripts.value,
                                ToRemove(filename.value), r.value.background)
    ensures r.Ok? ==> r.value.background != ""
    ensures r.Ok? ==> r.value.extensionPage == Null
    ensures r.Ok? ==> (r.value.contentScript == Null <==> manifest.contentScripts.None?)
    ensures r.Ok? && manifest.contentScripts.Some? ==>
      r.value.contentScript == Names(ContentEntries(entryKeys, manifest.contentScripts.value, ToRemove(filename.value)))
  {
    if filename.None? || filename.value == "" then Err(FilenameRequired)
    else if manifest.background.None? || manifest.background.value.scripts.None? then
      Err(BgScriptManifestRequired)
    else
      var scripts := manifest.background.value.scripts.value;
      var toRemove := ToRemove(filename.value);
      var found := FindBackgroundEntry(entryKeys, scripts, toRemove);
      match found
      case None => Err(BgScriptEntryError)
      // `if (!bgWebpackEntry)` is a falsy test: an empty key is rejected too.
      case Some(bg) =>
        if bg == "" then Err(BgScriptEntryError) else
        var contentScript :=
          if manifest.contentScripts.None? then Null
          else Names(ContentEntries(entryKeys, manifest.contentScripts.value, toRemove));
        Ok(Entries(bg, contentScript, Null))
  }

  // ---------------------------------------------------------------------
  // The content entries, counted

  /** Every content script of the manifest, stripped, in manifest order. */
  function StripAll(js: seq<string>, toRemove: string): (r: seq<string>)
    ensures |r| == |js|
  {
    if js == [] then [] else [Strip(js[0], toRemove)] + StripAll(js[1..], toRemove)
  }

  function StrippedScripts(blocks: seq<ContentScriptBlock>, toRemove: string): seq<string> {
    if blocks == [] then [] else StripAll(blocks[0].js, toRemove) + StrippedScripts(blocks[1..], toRemove)
  }

  lemma {:induction false} MatchingItemsCount(key: string, js: seq<string>, toRemove: string)
    ensures |MatchingItems(key, js, toRemove)| == multiset(StripAll(js, toRemove))[key]
  {
    if js != [] {
      MatchingItemsCount(key, js[1..], toRemove);
      assert StripAll(js, toRemove) == [Strip(js[0], toRemove)] + StripAll(js[1..], toRemove);
    }
  }

  /** For one key, the content entries are that key once per content script
      (across all blocks) that names it once stripped. */
  lemma {:induction false} EntriesForKeyCount(key: string, blocks: seq<ContentScriptBlock>, toRemove: string)
    ensures |EntriesForKey(key, blocks, toRemove)| == multiset(StrippedScripts(blocks, toRemove))[key]
  {
    if blocks != [] {
      MatchingItemsCount(key, blocks[0].js, toRemove);
      EntriesForKeyCount(key, blocks[1..], toRemove);
    }
  }

  lemma {:induction false} AllSameMultiset(s: seq<string>, key: string, x: string)
    requires forall y :: y in s ==> y == key
    ensures multiset(s)[x] == if x == key then |s| else 0
  {
    if s != [] {
      assert s == [s[0]] + s[1..];
      assert s[0] in s;
      assert forall y :: y in s[1..] ==> y in s;
      AllSameMultiset(s[1..], key, x);
      assert multiset(s) == multiset([s[0]]) + multiset(s[1..]);
    }
  }

  predicate DistinctKeys(keys: seq<string>) {
    forall i, j :: 0 <= i < j < |keys| ==> keys[i] != keys[j]
  }

  /** With distinct entry keys (as `Object.keys` gives), each key occurs in
      the content entries exactly as often as a stripped content script
      equals it, and a string that is not a key never occurs. */
  lemma {:induction false} ContentEntriesCount(keys: seq<string>, blocks: seq<ContentScriptBlock>, toRemove: string, x: string)
    requires DistinctKeys(keys)
    ensures multiset(ContentEntries(keys, blocks, toRemove))[x] ==
      if x in keys then multiset(StrippedScripts(blocks, toRemove))[x] else 0
  {
    if keys != [] {
      var first := EntriesForKey(keys[0], blocks, toRemove);
      EntriesForKeyCount(keys[0], blocks, toRemove);
      AllSameMultiset(first, keys[0], x);
      ContentEntriesCount(keys[1..], blocks, toRemove, x);
      assert x in keys <==> x == keys[0] || x in keys[1..];
      if x == keys[0] {
        assert x !in keys[1..];
      }
    }
  }

  /** Position of `x` in `keys`. */
  function KeyIndex(keys: seq<string>, x: string): (i: nat)
    requires x in keys
    ensures i < |keys| && keys[i] == x
  {
    if keys[0] == x then 0 else 1 + KeyIndex(keys[1..], x)
  }

  /** The content entries are ordered by entry key. */
  lemma {:induction false} ContentEntriesOrdered(keys: seq<string>, blocks: seq<ContentScriptBlock>, toRemove: string, i: nat, j: nat)
    requires DistinctKeys(keys)
    requires i <= j < |ContentEntries(keys, blocks, toRemove)|
    ensures var r := ContentEntries(keys, blocks, toRemove);
      KeyIndex(keys, r[i]) <= KeyIndex(keys, r[j])
  {
    var r := ContentEntries(keys, blocks, toRemove);
    var first := EntriesForKey(keys[0], blocks, toRemove);
    var rest := ContentEntries(keys[1..], blocks, toRemove);
    assert r == first + rest;
    if i < |first| {
      assert r[i] == first[i] && first[i] in first;
    } else {
      var i', j' := i - |first|, j - |first|;
      assert r[i] == rest[i'] && r[j] == rest[j'];
      assert rest[i'] in rest && rest[j'] in rest;
      ContentEntriesOrdered(keys[1..], blocks, toRemove, i', j');
      assert keys[0] !in keys[1..];
      assert r[i] != keys[0] && r[j] != keys[0];
    }
  }

  /** `if (!bgWebpackEntry)` rejects an empty entry key even when it names a
      background script: with output "[name]" + suffix, the script that is
      the suffix alone strips to the key "". */
  lemma EmptyEntryKeyRejected(suffix: string)
    requires suffix != []
    ensures ExtractEntries([""], Some(NamePlaceholder + suffix),
      ExtensionManifest(Some(Background(Some([suffix]))), None)) == Err(BgScriptEntryError)
  {
    RemoveFirstSuffixAfterPlaceholder(suffix);
    assert [] + suffix == suffix;
    StripScriptName([], suffix);
    assert NamesBackgroundScript("", [suffix], suffix);
    assert FindBackgroundEntry([""], [suffix], suffix) == Some("");
  }

  /** One background and one content entry, each emitted as its key followed
      by the output suffix: the entries are recovered exactly. */
  lemma NamedScriptsExample(bg: string, ct: string, suffix: string)
    requires suffix != [] && suffix[0] !in bg && suffix[0] !in ct
    requires bg != "" && bg != ct
    ensures ExtractEntries(
      [bg, ct],
      Some(NamePlaceholder + suffix),
      ExtensionManifest(
        Some(Background(Some([bg + suffix]))),
        Some([ContentScriptBlock([ct + suffix])])))
      == Ok(Entries(bg, Names([ct]), Null))
  {
    RemoveFirstSuffixAfterPlaceholder(suffix);
    NamedBackground(bg, ct, suffix);
    NamedContent(bg, ct, suffix);
  }

  lemma NamedBackground(bg: string, ct: string, suffix: string)
    requires suffix != [] && suffix[0] !in bg
    ensures FindBackgroundEntry([bg, ct], [bg + suffix], suffix) == Some(bg)
  {
    StripScriptName(bg, suffix);
    assert NamesBackgroundScript(bg, [bg + suffix], suffix);
  }

  lemma NamedContent(bg: string, ct: string, suffix: string)
    requires suffix != [] && suffix[0] !in ct && bg != ct
    ensures ContentEntries([bg, ct], [ContentScriptBlock([ct + suffix])], suffix) == [ct]
  {
    var keys := [bg, ct];
    var blocks := [ContentScriptBlock([ct + suffix])];
    StripScriptName(ct, suffix);
    assert MatchingItems(bg, [ct + suffix], suffix) == [];
    assert EntriesForKey(bg, blocks, suffix) == [];
    assert MatchingItems(ct, [ct + suffix], suffix) == [ct];
    assert EntriesForKey(ct, blocks, suffix) == [ct];
    assert keys[1..] == [ct];
    assert ContentEntries(keys[1..], blocks, suffix) == [ct];
  }

  /** The usual configuration: output "[name].bundle.js", background script
      "background.bundle.js", content script "content.bundle.js". */
  lemma BundleNamingExample()
    ensures ExtractEntries(
      ["background", "content"],
      Some("[name].bundle.js"),
      ExtensionManifest(
        Some(Background(Some(["background.bundle.js"]))),
        Some([ContentScriptBlock(["content.bundle.js"])])))
      == Ok(Entries("background", Names(["content"]), Null))
  {
    var suffix := ".bundle.js";
    assert NamePlaceholder + suffix == "[name].bundle.js";
    assert "background" + suffix == "background.bundle.js";
    assert "content" + suffix == "content.bundle.js";
    NamedScriptsExample("background", "content", suffix);
  }

  lemma RemoveFirstSuffixAfterPlaceholder(suffix: string)
    ensures ToRemove(NamePlaceholder + suffix) == suffix
  {
    var s := NamePlaceholder + suffix;
    assert s[0..6] == NamePlaceholder;
    assert OccursAt(s, NamePlaceholder, 0);
    assert IndexOf(s, NamePlaceholder) == Some(0);
    assert s[6..] == suffix;
  }

  /** A script named after an entry key and followed by `toRemove` strips
      back to that key, when the key does not contain the first character of
      `toRemove` (a key without a `.` against ".bundle.js", say). */
  lemma StripScriptName(x: string, suffix: string)
    requires suffix != [] && suffix[0] !in x
    ensures Strip(x + suffix, suffix) == x
  {
    var s := x + suffix;
    forall j: nat | j < |x| ensures !OccursAt(s, suffix, j) {
      assert x[j] in x;
      assert s[j] == x[j] != suffix[0];
      if j + |suffix| <= |s| {
        assert s[j..j + |suffix|][0] == s[j];
      }
    }
    RemoveFirstSuffix(x, suffix);
  }
}
