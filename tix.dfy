/**
 * The `package` host operation of tix: it reads a package declaration from
 * a script table, resolves its sources, hands a fresh archive writer to the
 * declaration's `build` function and, once that returns, registers the
 * package in the name-keyed package store.
 *
 * The Lua interpreter is not modelled: the script table is a `Value`, and
 * what the `build` function does with its builder handle is given as a
 * `BuildRun`, the calls it makes in order and whether it then raises.
 */
module Tix {
  import opened Wrappers
  import opened Utf8
  import opened Blake3Hex
  import opened LuaValues
  import opened Archive

  datatype Source = Source(uri: string, hash: Option<Digest>)

  datatype Package = Package(name: string, src: seq<Source>)

  /** Why a `package` call fails. Positions count `src` entries in iteration order, from 0. */
  datatype Failure =
    | BadArgument(err: ConversionError)
    | BadField(field: string, err: ConversionError)
    | BadSourceTable(position: nat, err: ConversionError)
    | BadUri(position: nat, err: ConversionError)
    | BadHash(position: nat, err: ConversionError)
      /** `from_hex(..).unwrap()` panicked: a panic, not a Lua error. */
    | HashPanic(position: nat, hexError: HexError)
      /** The `build` function raised an error. */
    | BuildFailed

  /** What the script's `build` function does when it is called with the builder. */
  datatype BuildRun = BuildRun(calls: seq<BuilderCall>, raises: bool)

  /** The fields of a declaration, read in the order `name`, `src`, `build`. */
  datatype Declaration = Declaration(name: string, src: seq<(Key, Value)>, build: nat)

  function TableField(t: seq<(Key, Value)>, field: string): Value
  {
    Get(t, StrKey(field))
  }

  /** The up-front field extraction of the `package` closure. */
  function ParseDeclaration(arg: Value): (r: Result<Declaration, Failure>)
    ensures r.Ok? <==> arg.Table? && ToString(TableField(arg.entries, "name")).Ok?
                       && TableField(arg.entries, "src").Table?
                       && TableField(arg.entries, "build").Function?
    ensures r.Ok? ==> r.value == Declaration(ToString(TableField(arg.entries, "name")).value,
                                             TableField(arg.entries, "src").entries,
                                             TableField(arg.entries, "build").id)
  {
    match ToTable(arg)
    case Err(e) => Err(BadArgument(e))
    case Ok(t) =>
      match ToString(TableField(t, "name"))
      case Err(e) => Err(BadField("name", e))
      case Ok(name) =>
        match ToTable(TableField(t, "src"))
        case Err(e) => Err(BadField("src", e))
        case Ok(src) =>
          match ToFunction(TableField(t, "build"))
          case Err(e) => Err(BadField("build", e))
          case Ok(build) => Ok(Declaration(name, src, build))
  }

  /** One `src` entry: a table with a string `uri` and an optional hex `hash`. */
  function ParseSource(v: Value, position: nat): Result<Source, Failure>
  {
    match ToTable(v)
    case Err(e) => Err(BadSourceTable(position, e))
    case Ok(t) =>
      match ToString(TableField(t, "uri"))
      case Err(e) => Err(BadUri(position, e))
      case Ok(uri) =>
        match ToOptString(TableField(t, "hash"))
        case Err(e) => Err(BadHash(position, e))
        case Ok(None) => Ok(Source(uri, None))
        case Ok(Some(h)) =>
          match FromHex(Encode(h))
          case Err(e) => Err(HashPanic(position, e))
          case Ok(d) => Ok(Source(uri, Some(d)))
  }

  /** All `src` entries, in iteration order; the first entry that fails stops the parse. */
  function ParseSources(entries: seq<(Key, Value)>): Result<seq<Source>, Failure>
  {
    if entries == [] then Ok([])
    else
      var n := |entries| - 1;
      match ParseSources(entries[..n])
      case Err(e) => Err(e)
      case Ok(sources) =>
        match ParseSource(entries[n].1, n)
        case Err(e) => Err(e)
        case Ok(s) => Ok(sources + [s])
  }

  /** The result of a `package` call and the package store and store directory after it. */
  datatype Outcome = Outcome(
    result: Result<(), Failure>,
    packages: map<string, Package>,
    archives: map<string, seq<Entry>>)

  /** What one `package` call does, as a function of the state before it. */
  function DeclareSpec(arg: Value, run: BuildRun, packages: map<string, Package>,
                       archives: map<string, seq<Entry>>): Outcome
  {
    match ParseDeclaration(arg)
    case Err(e) => Outcome(Err(e), packages, archives)
    case Ok(decl) =>
      match ParseSources(decl.src)
      case Err(e) => Outcome(Err(e), packages, archives)
      case Ok(sources) =>
        var after := Play(decl.name, BuildState([], archives), run.calls).archives;
        if run.raises then Outcome(Err(BuildFailed), packages, after)
        else Outcome(Ok(()), packages[decl.name := Package(decl.name, sources)], after)
  }

  /** `PackageStore`: the registry from package name to package. */
  class PackageStore {
    var packages: map<string, Package>

    constructor ()
      ensures packages == map[]
    {
      packages := map[];
    }

    /** `HashMap::insert`: sets the entry for `name`, replacing any earlier one. */
    method Insert(name: string, package: Package)
      modifies this
      ensures packages == old(packages)[name := package]
    {
      packages := packages[name := package];
    }
  }

  /** The loop over `src.pairs()`, pushing one `Source` per entry. */
  method ResolveSources(entries: seq<(Key, Value)>) returns (r: Result<seq<Source>, Failure>)
    ensures r == ParseSources(entries)
  {
    var sources: seq<Source> := [];
    var k := 0;
    while k < |entries|
      invariant 0 <= k <= |entries|
      invariant ParseSources(entries[..k]) == Ok(sources)
    {
      assert entries[..k + 1][..k] == entries[..k];
      var (_, sourceTable) := entries[k];
      var parsed := ParseSource(sourceTable, k);
      if parsed.Err? {
        PrefixFailureIsFinal(entries, k + 1);
        return Err(parsed.error);
      }
      sources := sources + [parsed.value];
      k := k + 1;
    }
    assert entries[..k] == entries;
    r := Ok(sources);
  }

  /** A failure on a prefix of the entries is the failure of the whole parse. */
  lemma {:induction false} PrefixFailureIsFinal(entries: seq<(Key, Value)>, k: nat)
    requires k <= |entries| && ParseSources(entries[..k]).Err?
    ensures ParseSources(entries) == ParseSources(entries[..k])
    decreases |entries| - k
  {
    if k < |entries| {
      assert entries[..k + 1][..k] == entries[..k];
      PrefixFailureIsFinal(entries, k + 1);
    } else {
      assert entries[..k] == entries;
    }
  }

  /** Calling the `build` function: its builder calls, made on `writer`, in order. */
  method RunBuild(writer: ArchiveWriter, store: FileStore, calls: seq<BuilderCall>)
    modifies writer, store
    ensures BuildState(writer.files, store.archives)
            == Play(writer.name, BuildState(old(writer.files), old(store.archives)), calls)
  {
    ghost var start := BuildState(writer.files, store.archives);
    var k := 0;
    while k < |calls|
      invariant 0 <= k <= |calls|
      invariant BuildState(writer.files, store.archives) == Play(writer.name, start, calls[..k])
    {
      assert calls[..k + 1][..k] == calls[..k];
      match calls[k] {
        case AddTextFile(path, content) => writer.AddTextFile(path, content);
        case Finish => writer.Finish(store);
      }
      k := k + 1;
    }
    assert calls[..k] == calls;
  }

  /**
   * The `package` closure: read `name`, `src` and `build`; resolve the
   * sources; create the writer and call `build`; then register the package.
   */
  method DeclarePackage(arg: Value, run: BuildRun, registry: PackageStore, store: FileStore)
    returns (r: Result<(), Failure>)
    modifies registry, store
    ensures Outcome(r, registry.packages, store.archives)
            == DeclareSpec(arg, run, old(registry.packages), old(store.archives))
  {
    var decl := ParseDeclaration(arg);
    if decl.Err? {
      return Err(decl.error);
    }
    var name := decl.value.name;
    var sources := ResolveSources(decl.value.src);
    if sources.Err? {
      return Err(sources.error);
    }
    var builder := new ArchiveWriter(name);
    RunBuild(builder, store, run.calls);
    if run.raises {
      return Err(BuildFailed);
    }
    registry.Insert(name, Package(name, sources.value));
    r := Ok(());
  }

  // ---------------------------------------------------------------------
  // Properties of a `package` call
  // ---------------------------------------------------------------------

  /**
   * The fields are read in the order `name`, `src`, `build`: each one is
   * reported as the failing field exactly when every field before it is
   * well-typed and it is not.
   */
  lemma FieldsReadInOrder(t: seq<(Key, Value)>, run: BuildRun, packages: map<string, Package>,
                          archives: map<string, seq<Entry>>)
    ensures var r := DeclareSpec(Table(t), run, packages, archives).result;
      && (r == Err(BadField("name", ConversionError(TypeName(TableField(t, "name")), "String")))
          <==> ToString(TableField(t, "name")).Err?)
      && (r == Err(BadField("src", ConversionError(TypeName(TableField(t, "src")), "table")))
          <==> ToString(TableField(t, "name")).Ok? && !TableField(t, "src").Table?)
      && (r == Err(BadField("build", ConversionError(TypeName(TableField(t, "build")), "function")))
          <==> ToString(TableField(t, "name")).Ok? && TableField(t, "src").Table?
               && !TableField(t, "build").Function?)
  {
    var arg := Table(t);
    if ParseDeclaration(arg).Ok? {
      SourceFailureKinds(ParseDeclaration(arg).value.src);
    }
  }

  /** The failures source parsing can report: none of them is a field or `build` failure. */
  lemma {:induction false} SourceFailureKinds(entries: seq<(Key, Value)>)
    ensures ParseSources(entries).Err? ==>
      var e := ParseSources(entries).error;
      e.BadSourceTable? || e.BadUri? || e.BadHash? || e.HashPanic?
  {
    if entries != [] {
      SourceFailureKinds(entries[..|entries| - 1]);
    }
  }

  /**
   * Every failure except one raised by `build` itself happens before the
   * writer exists: the store directory and the package store are untouched.
   * A `build` failure leaves the package store untouched.
   */
  lemma FailureBeforeSideEffects(arg: Value, run: BuildRun, packages: map<string, Package>,
                                 archives: map<string, seq<Entry>>)
    ensures var out := DeclareSpec(arg, run, packages, archives);
      && (out.result.Err? ==> out.packages == packages)
      && (out.result.Err? && out.result.error != BuildFailed ==> out.archives == archives)
      && (out.result == Err(BuildFailed) <==>
            ParseDeclaration(arg).Ok? && ParseSources(ParseDeclaration(arg).value.src).Ok? && run.raises)
  {
    if ParseDeclaration(arg).Ok? {
      SourceFailureKinds(ParseDeclaration(arg).value.src);
    }
  }

  /** Exactly one `Source` per `src` entry, in iteration order. */
  lemma {:induction false} OneSourcePerEntry(entries: seq<(Key, Value)>)
    requires ParseSources(entries).Ok?
    ensures |ParseSources(entries).value| == |entries|
    ensures forall k :: 0 <= k < |entries| ==> Ok(ParseSources(entries).value[k]) == ParseSource(entries[k].1, k)
  {
    if entries != [] {
      var n := |entries| - 1;
      var init := entries[..n];
      OneSourcePerEntry(init);
      var sources := ParseSources(init).value;
      var last := ParseSource(entries[n].1, n);
      var all := sources + [last.value];
      assert ParseSources(entries) == Ok(all);
      forall k | 0 <= k < n ensures Ok(all[k]) == ParseSource(entries[k].1, k) {
        assert all[k] == sources[k] && init[k] == entries[k];
      }
    }
  }

  /**
   * When one `src` entry parses: it is a table with a string `uri`, and its
   * `hash` is either absent or a string that decodes as a digest.
   */
  lemma SourceParsesIff(v: Value, k: nat)
    ensures ParseSource(v, k).Ok? <==>
      && v.Table?
      && ToString(TableField(v.entries, "uri")).Ok?
      && (TableField(v.entries, "hash") == Nil
          || (ToString(TableField(v.entries, "hash")).Ok?
              && FromHex(Encode(ToString(TableField(v.entries, "hash")).value)).Ok?))
  {
  }

  /** When every entry parses on its own, the whole `src` table parses. */
  lemma {:induction false} AllEntriesParse(entries: seq<(Key, Value)>)
    requires forall k :: 0 <= k < |entries| ==> ParseSource(entries[k].1, k).Ok?
    ensures ParseSources(entries).Ok?
  {
    if entries != [] {
      var n := |entries| - 1;
      var init := entries[..n];
      forall k | 0 <= k < n ensures ParseSource(init[k].1, k).Ok? {
        assert init[k] == entries[k];
      }
      AllEntriesParse(init);
      assert ParseSource(entries[n].1, n).Ok?;
    }
  }

  /** The parse of the `src` entries succeeds exactly when every entry parses. */
  lemma SourcesOkIff(entries: seq<(Key, Value)>)
    ensures ParseSources(entries).Ok? <==> forall k :: 0 <= k < |entries| ==> ParseSource(entries[k].1, k).Ok?
  {
    if ParseSources(entries).Ok? {
      OneSourcePerEntry(entries);
    } else if forall k :: 0 <= k < |entries| ==> ParseSource(entries[k].1, k).Ok? {
      AllEntriesParse(entries);
    }
  }

  /** The parse reports the first entry, in iteration order, that fails. */
  lemma {:induction false} FirstFailingEntryWins(entries: seq<(Key, Value)>, k: nat)
    requires k < |entries| && ParseSource(entries[k].1, k).Err?
    requires forall j :: 0 <= j < k ==> ParseSource(entries[j].1, j).Ok?
    ensures ParseSources(entries) == Err(ParseSource(entries[k].1, k).error)
  {
    var n := |entries| - 1;
    var init := entries[..n];
    if k == n {
      forall j | 0 <= j < n ensures ParseSource(init[j].1, j).Ok? {
        assert init[j] == entries[j];
      }
      AllEntriesParse(init);
      assert ParseSources(entries) == Err(ParseSource(entries[n].1, n).error);
    } else {
      assert init[k] == entries[k];
      forall j | 0 <= j < k ensures ParseSource(init[j].1, j).Ok? {
        assert init[j] == entries[j];
      }
      FirstFailingEntryWins(init, k);
    }
  }

  /** A resolved source carries the entry's `uri`, and its `hash` decoded when one was given. */
  lemma SourceFromEntry(t: seq<(Key, Value)>, k: nat)
    requires ParseSource(Table(t), k).Ok?
    ensures var s := ParseSource(Table(t), k).value;
      && ToString(TableField(t, "uri")) == Ok(s.uri)
      && (s.hash.None? <==> TableField(t, "hash") == Nil)
      && (s.hash.Some? ==> FromHex(Encode(ToString(TableField(t, "hash")).value)) == Ok(s.hash.value))
  {
  }

  /**
   * A hash string that is not 64 ASCII hex digits makes `unwrap` panic
   * while the entry is parsed.
   */
  lemma MalformedHashPanics(t: seq<(Key, Value)>, k: nat, h: string)
    requires ToString(TableField(t, "uri")).Ok? && TableField(t, "hash") == Str(h)
    requires !(|h| == 64 && forall i :: 0 <= i < |h| ==> h[i] as int < 0x80 && IsHexDigit(h[i] as int as byte))
    ensures ParseSource(Table(t), k).Err? && ParseSource(Table(t), k).error.HashPanic?
  {
    FromHexOfString(h);
  }

  /**
   * A declaration whose fields are well-typed but one of whose `src` entries
   * fails fails the call with that error, before any writer exists: the
   * registry and the store directory are unchanged.
   */
  lemma SourceFailureFailsCall(arg: Value, run: BuildRun, packages: map<string, Package>,
                               archives: map<string, seq<Entry>>)
    requires ParseDeclaration(arg).Ok? && ParseSources(ParseDeclaration(arg).value.src).Err?
    ensures DeclareSpec(arg, run, packages, archives)
            == Outcome(Err(ParseSources(ParseDeclaration(arg).value.src).error), packages, archives)
  {
  }

  /**
   * A well-formed declaration whose `build` returns is registered under its
   * name, replacing any earlier package of that name and no other; the store
   * directory holds what the builder calls wrote.
   */
  lemma RegisteredAfterBuild(arg: Value, run: BuildRun, packages: map<string, Package>,
                             archives: map<string, seq<Entry>>)
    requires ParseDeclaration(arg).Ok? && ParseSources(ParseDeclaration(arg).value.src).Ok?
    ensures var name := ParseDeclaration(arg).value.name;
      var out := DeclareSpec(arg, run, packages, archives);
      && out.archives == Play(name, BuildState([], archives), run.calls).archives
      && (run.raises ==> out.result == Err(BuildFailed) && out.packages == packages)
      && (!run.raises ==>
            && out.result == Ok(())
            && out.packages.Keys == packages.Keys + {name}
            && out.packages[name] == Package(name, ParseSources(ParseDeclaration(arg).value.src).value)
            && forall n :: n in packages && n != name ==> out.packages[n] == packages[n])
  {
  }

  /** The text file of the example script in the tix entry point. */
  const EXAMPLE_TEXT: string :=
    "                    #!/bin/sh\n                    echo \"Hello World!\"\n                    "

  /** The example script's declaration table. */
  const EXAMPLE_ARG: Value := Table([
    (StrKey("name"), Str("hello")),
    (StrKey("src"), Table([])),
    (StrKey("build"), Function(0))])

  /**
   * The shape of the example script: package `hello`, no sources, one
   * text file `bin/hello` holding any text `text`, then `finish`. Its archive holds exactly that one entry, with the fixed
   * metadata and the text as content, at `/tix/store/hello`.
   */
  lemma ExampleDeclaration(text: string, packages: map<string, Package>, archives: map<string, seq<Entry>>)
    ensures var out := DeclareSpec(EXAMPLE_ARG, BuildRun([AddTextFile("bin/hello", text), Finish], false),
                                   packages, archives);
      && out.result == Ok(())
      && out.archives == archives["/tix/store/hello" := [Entry("bin/hello", 1000, 1000, 0x81A4, Encode(text))]]
      && Decode(out.archives["/tix/store/hello"][0].content) == Some(text)
      && out.packages == packages["hello" := Package("hello", [])]
  {
    ExampleParses();
    ExampleBuild(text, archives);
  }

  /** The example's declaration table reads as `hello`, with no sources. */
  lemma ExampleParses()
    ensures ParseDeclaration(EXAMPLE_ARG) == Ok(Declaration("hello", [], 0))
    ensures ParseSources([]) == Ok([])
  {
    var t := EXAMPLE_ARG.entries;
    assert TableField(t, "name") == Str("hello");
    assert TableField(t, "src") == Table([]) by {
      assert t[0].0 != StrKey("src");
    }
    assert TableField(t, "build") == Function(0) by {
      assert t[0].0 != StrKey("build") && t[1].0 != StrKey("build");
    }
  }

  /** The example's `build`: `bin/hello`, then `finish`, on a writer named `hello`. */
  lemma ExampleBuild(text: string, archives: map<string, seq<Entry>>)
    ensures Play("hello", BuildState([], archives), [AddTextFile("bin/hello", text), Finish]).archives
            == archives["/tix/store/hello" := [TextEntry("bin/hello", text)]]
  {
    var add := AddTextFile("bin/hello", text);
    assert [add, Finish] == [add] + [Finish] + [];
    LastFinishWins("hello", BuildState([], archives), [add], []);
    assert TextEntries([add]) == [TextEntry("bin/hello", text)];
    assert StorePath("hello") == "/tix/store/hello";
    var after := Play("hello", BuildState([], archives), [add, Finish]).archives;
    forall p | p != StorePath("hello")
      ensures p in after <==> p in archives
      ensures p in archives ==> after[p] == archives[p]
    {
      OtherPathsUntouched("hello", BuildState([], archives), [add, Finish], p);
    }
  }

  /**
   * The example script itself, run against the empty package store and an
   * empty store directory that the entry point starts from.
   */
  lemma ExampleScript()
    ensures var out := DeclareSpec(EXAMPLE_ARG, BuildRun([AddTextFile("bin/hello", EXAMPLE_TEXT), Finish], false),
                                   map[], map[]);
      && out.result == Ok(())
      && out.archives == map["/tix/store/hello" := [TextEntry("bin/hello", EXAMPLE_TEXT)]]
      && out.packages == map["hello" := Package("hello", [])]
  {
    ExampleDeclaration(EXAMPLE_TEXT, map[], map[]);
  }

  /**
   * A source whose hash is "zz" makes the declaration fail, with a panic,
   * before any archive is written or any package registered.
   */
  lemma ZzHashFailsBeforeArchive(run: BuildRun, packages: map<string, Package>,
                                 archives: map<string, seq<Entry>>)
    ensures var arg := Table([
        (StrKey("name"), Str("hello")),
        (StrKey("src"), Table([(IntKey(1), Table([(StrKey("uri"), Str("u")), (StrKey("hash"), Str("zz"))]))])),
        (StrKey("build"), Function(0))]);
      var out := DeclareSpec(arg, run, packages, archives);
      && out.result.Err? && out.result.error.HashPanic? && out.result.error.position == 0
      && out.archives == archives && out.packages == packages
  {
    var entry := Table([(StrKey("uri"), Str("u")), (StrKey("hash"), Str("zz"))]);
    ZzIsRejected();
    assert ParseSources([(IntKey(1), entry)]) == Err(ParseSource(entry, 0).error) by {
      FirstFailingEntryWins([(IntKey(1), entry)], 0);
    }
  }

  /**
   * Two declarations of the same name: the second one's package replaces
   * the first's, and the second one's last `finish` decides the archive at
   * the shared store path.
   */
  lemma SameNameReplacesEarlier(arg1: Value, run1: BuildRun, arg2: Value, pre: seq<BuilderCall>,
                                post: seq<BuilderCall>, packages: map<string, Package>,
                                archives: map<string, seq<Entry>>)
    requires ParseDeclaration(arg1).Ok? && ParseDeclaration(arg2).Ok?
    requires ParseDeclaration(arg1).value.name == ParseDeclaration(arg2).value.name
    requires ParseSources(ParseDeclaration(arg2).value.src).Ok?
    requires forall k :: 0 <= k < |post| ==> post[k].AddTextFile?
    ensures var name := ParseDeclaration(arg2).value.name;
      var out1 := DeclareSpec(arg1, run1, packages, archives);
      var out2 := DeclareSpec(arg2, BuildRun(pre + [Finish] + post, false), out1.packages, out1.archives);
      && out2.packages[name] == Package(name, ParseSources(ParseDeclaration(arg2).value.src).value)
      && StorePath(name) in out2.archives
      && out2.archives[StorePath(name)] == TextEntries(pre)
  {
    var name := ParseDeclaration(arg2).value.name;
    var out1 := DeclareSpec(arg1, run1, packages, archives);
    LastFinishWins(name, BuildState([], out1.archives), pre, post);
  }
}
