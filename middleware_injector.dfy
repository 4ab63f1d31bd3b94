/** `middlewareInjector`: the predicate deciding which chunks play a role and
    the map from each of their `.js` files to the watcher source concatenated
    with the file's original source. */
module MiddlewareInjector {
  import opened Strings
  import opened Typings

  /** One piece of a webpack `Source`; `Undefined` is what `assets[file]`
      yields for a file that is not an asset. */
  datatype Piece = Raw(text: string) | Undefined

  /** A `Source` is modelled as the sequence of its pieces. */
  type Source = seq<Piece>

  /** `new ConcatSource(a, b)`: the pieces of `a` followed by those of `b`. */
  function Concat(a: Source, b: Source): (r: Source)
    ensures |r| == |a| + |b| && r[..|a|] == a && r[|a|..] == b
  {
    a + b
  }

  /** `assets[file]`. */
  function AssetAt(assets: map<string, Source>, file: string): Source {
    if file in assets then assets[file] else [Undefined]
  }

  /** `role === name` for a string role (an array is never `===` a string). */
  predicate IsName(role: Role, name: string) {
    role == Name(name)
  }

  /** `role && role.includes(name)`: `null` and "" are falsy; a string role
      tests for a SUBSTRING, an array role for membership. */
  predicate Includes(role: Role, name: string) {
    match role
    case Null => false
    case Name(s) => s != "" && Contains(s, name)
    case Names(ns) => name in ns
  }

  /** `matchBgOrContentOrPage`. */
  predicate MatchBgOrContentOrPage(name: string, e: Entries) {
    || name == e.background
    || IsName(e.contentScript, name)
    || Includes(e.contentScript, name)
    || IsName(e.extensionPage, name)
    || Includes(e.extensionPage, name)
  }

  /** Compared with the role names as a set, the injector's predicate also
      admits every substring of a string role; for `null` and array roles it
      is plain membership. */
  lemma MatchBgOrContentOrPageRoles(name: string, e: Entries)
    ensures MatchBgOrContentOrPage(name, e) <==>
      || name == e.background
      || name in RoleNames(e.contentScript) || name in RoleNames(e.extensionPage)
      || (e.contentScript.Name? && Contains(e.contentScript.name, name))
      || (e.extensionPage.Name? && Contains(e.extensionPage.name, name))
  {
    RoleMatch(e.contentScript, name);
    RoleMatch(e.extensionPage, name);
  }

  /** One role's two tests together: the names of the role, and for a string
      role its substrings (the empty role "" admits only ""). */
  lemma RoleMatch(role: Role, name: string)
    ensures IsName(role, name) || Includes(role, name) <==>
      name in RoleNames(role) || (role.Name? && Contains(role.name, name))
  {
    match role
    case Null =>
    case Names(ns) =>
    case Name(s) =>
      if s == "" && Contains(s, name) {
        var i: nat :| i <= 0 && OccursAt(s, name, i);
        assert name == s;
      }
  }

  /** `/\.js$/.test(file)`. */
  predicate IsScript(file: string) {
    EndsWith(file, ".js")
  }

  /** A file is a script exactly when it is some stem followed by ".js";
      a source map "x.js.map" is not one. */
  lemma IsScriptStem(file: string)
    ensures IsScript(file) <==> exists stem :: stem + ".js" == file
    ensures !IsScript(file + ".map")
  {
    if IsScript(file) {
      assert file[..|file| - 3] + ".js" == file;
    }
    forall stem | stem + ".js" == file ensures IsScript(file) {
      assert file[|file| - 3..] == (stem + ".js")[|stem|..];
    }
    var m := file + ".map";
    assert m[|m| - 1] == 'p';
  }

  /** The files the injector rewrites: the `.js` files of matching chunks. */
  function InjectedFiles(chunks: seq<Chunk>, e: Entries): set<string> {
    set c, f | c in chunks && f in c.files && MatchBgOrContentOrPage(c.name, e) && IsScript(f) :: f
  }

  /** What the injector stores for `file`: the watcher, then the original. */
  function Wrapped(watcher: Source, assets: map<string, Source>, file: string): Source {
    Concat(watcher, AssetAt(assets, file))
  }

  function ScriptFiles(files: seq<string>): set<string> {
    set f | f in files && IsScript(f)
  }

  lemma InjectedFilesSnoc(chunks: seq<Chunk>, c: Chunk, e: Entries)
    ensures InjectedFiles(chunks + [c], e) ==
      InjectedFiles(chunks, e) + (if MatchBgOrContentOrPage(c.name, e) then ScriptFiles(c.files) else {})
  {
    var lhs := InjectedFiles(chunks + [c], e);
    var rhs := InjectedFiles(chunks, e) + (if MatchBgOrContentOrPage(c.name, e) then ScriptFiles(c.files) else {});
    forall f | f in lhs ensures f in rhs {
      var d :| d in chunks + [c] && f in d.files && MatchBgOrContentOrPage(d.name, e) && IsScript(f);
      if d != c {
        assert d in chunks;
      }
    }
    forall f | f in rhs ensures f in lhs {
      if f in InjectedFiles(chunks, e) {
        var d :| d in chunks && f in d.files && MatchBgOrContentOrPage(d.name, e) && IsScript(f);
        assert d in chunks + [c];
      } else {
        assert c in chunks + [c];
      }
    }
  }

  lemma ScriptFilesSnoc(files: seq<string>, f: string)
    ensures ScriptFiles(files + [f]) == ScriptFiles(files) + (if IsScript(f) then {f} else {})
  {
  }

  /** The `files.forEach` callback of one matching chunk: every `.js` file is
      set to the watcher followed by its original source. */
  method InjectFiles(acc: map<string, Source>, files: seq<string>, assets: map<string, Source>, watcher: Source)
    returns (injected: map<string, Source>)
    ensures injected.Keys == acc.Keys + ScriptFiles(files)
    ensures forall f | f in ScriptFiles(files) :: injected[f] == Wrapped(watcher, assets, f)
    ensures forall f | f in acc && f !in ScriptFiles(files) :: injected[f] == acc[f]
  {
    injected := acc;
    ghost var done: set<string> := {};
    for j := 0 to |files|
      invariant done == ScriptFiles(files[..j])
      invariant injected.Keys == acc.Keys + done
      invariant forall f | f in done :: injected[f] == Wrapped(watcher, assets, f)
      invariant forall f | f in acc && f !in done :: injected[f] == acc[f]
    {
      var entryPoint := files[j];
      assert files[..j + 1] == files[..j] + [entryPoint];
      ScriptFilesSnoc(files[..j], entryPoint);
      if IsScript(entryPoint) {
        injected := injected[entryPoint := Wrapped(watcher, assets, entryPoint)];
        done := done + {entryPoint};
      }
    }
    assert files[..|files|] == files;
  }

  /** The function `middlewareInjector` returns, applied to `(assets, chunks)`:
      a fresh map whose keys are exactly the `.js` files of the chunks that
      play a role, each mapped to the watcher followed by its original source.
      `assets` is a value and is left as it was. */
  method Inject(assets: map<string, Source>, chunks: seq<Chunk>, e: Entries, watcher: Source)
    returns (injected: map<string, Source>)
    ensures injected.Keys == InjectedFiles(chunks, e)
    ensures forall f | f in injected :: injected[f] == Wrapped(watcher, assets, f)
  {
    injected := map[];
    for i := 0 to |chunks|
      invariant injected.Keys == InjectedFiles(chunks[..i], e)
      invariant forall f | f in injected :: injected[f] == Wrapped(watcher, assets, f)
    {
      var c := chunks[i];
      if MatchBgOrContentOrPage(c.name, e) {
        injected := InjectFiles(injected, c.files, assets, watcher);
      }
      assert chunks[..i + 1] == chunks[..i] + [c];
      InjectedFilesSnoc(chunks[..i], c, e);
    }
    assert chunks[..|chunks|] == chunks;
  }
}
