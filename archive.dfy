/**
 * The tix archive writer: a per-package, append-only buffer of archive
 * entries with fixed ownership and permission metadata, and the store
 * directory its `finish` operation writes to.
 *
 * An archive is modelled as its ordered entry list. The cpio "newc" byte
 * layout and the zstd compression around it come from foreign crates and
 * are not part of this model.
 */
module Archive {
  import opened Wrappers
  import opened Utf8

  /** Owner and group id of every entry. */
  const UID: nat := 1000
  const GID: nat := 1000
  /** `0o100644`: a regular file (`0o100000`) readable by all, writable by its owner (`0o644`). */
  const MODE: nat := 0x8000 + 0x1A4
  /** The directory that holds one archive per package name. */
  const STORE_ROOT: string := "/tix/store/"

  /** One archive entry: a cpio header (path and metadata) and the file's bytes. */
  datatype Entry = Entry(path: string, uid: nat, gid: nat, mode: nat, content: seq<byte>)

  /** The entry `add_text_file(path, content)` buffers. */
  function TextEntry(path: string, content: string): (e: Entry)
    ensures e.path == path && e.uid == UID && e.gid == GID && e.mode == MODE
    ensures Decode(e.content) == Some(content)
  {
    DecodeEncode(content);
    Entry(path, UID, GID, MODE, Encode(content))
  }

  /** Where `finish` writes the archive of package `name`. */
  function StorePath(name: string): string
  {
    STORE_ROOT + name
  }

  /** One store file per package name: two names share a path exactly when they are equal. */
  lemma StorePathInjective(a: string, b: string)
    ensures StorePath(a) == StorePath(b) <==> a == b
  {
    if StorePath(a) == StorePath(b) {
      assert a == StorePath(a)[|STORE_ROOT|..];
      assert b == StorePath(b)[|STORE_ROOT|..];
    }
  }

  /** The store directory: each file's path and the entry list last written to it. */
  class FileStore {
    var archives: map<string, seq<Entry>>
  }

  /** `ArchiveWriter`: the builder handle passed to a package's `build` function. */
  class ArchiveWriter {
    const name: string
    var files: seq<Entry>

    constructor (name: string)
      ensures this.name == name && files == []
    {
      this.name := name;
      files := [];
    }

    /** Buffers one text file; nothing is written until `Finish`. */
    method AddTextFile(path: string, content: string)
      modifies this
      ensures files == old(files) + [TextEntry(path, content)]
    {
      var entry := Entry(path, UID, GID, MODE, Encode(content));
      files := files + [entry];
    }

    /**
     * Writes (a copy of) the buffered entries, in buffer order, to the
     * store file of this package, replacing whatever that file held. The
     * buffer itself is left as it was.
     */
    method Finish(store: FileStore)
      modifies store
      ensures store.archives == old(store.archives)[StorePath(name) := files]
    {
      var copy := files;
      store.archives := store.archives[StorePath(name) := copy];
    }
  }

  /** A call the build function makes on its builder handle. */
  datatype BuilderCall = AddTextFile(path: string, content: string) | Finish

  /** The writer's buffer together with the store. */
  datatype BuildState = BuildState(files: seq<Entry>, archives: map<string, seq<Entry>>)

  /** The effect of one builder call on a writer named `name`. */
  function Step(name: string, st: BuildState, call: BuilderCall): BuildState
  {
    match call
    case AddTextFile(path, content) => st.(files := st.files + [TextEntry(path, content)])
    case Finish => st.(archives := st.archives[StorePath(name) := st.files])
  }

  /** The effect of a sequence of builder calls, made in order. */
  function Play(name: string, st: BuildState, calls: seq<BuilderCall>): BuildState
  {
    if calls == [] then st
    else Step(name, Play(name, st, calls[..|calls| - 1]), calls[|calls| - 1])
  }

  /** The entries that the `add_text_file` calls among `calls` buffer, in call order. */
  function TextEntries(calls: seq<BuilderCall>): seq<Entry>
  {
    if calls == [] then []
    else
      var last := calls[|calls| - 1];
      TextEntries(calls[..|calls| - 1])
        + (if last.AddTextFile? then [TextEntry(last.path, last.content)] else [])
  }

  lemma {:induction false} PlayAppend(name: string, st: BuildState, a: seq<BuilderCall>, b: seq<BuilderCall>)
    ensures Play(name, st, a + b) == Play(name, Play(name, st, a), b)
  {
    if b == [] {
      assert a + b == a;
    } else {
      assert (a + b)[..|a + b| - 1] == a + b[..|b| - 1];
      PlayAppend(name, st, a, b[..|b| - 1]);
    }
  }

  lemma {:induction false} TextEntriesAppend(a: seq<BuilderCall>, b: seq<BuilderCall>)
    ensures TextEntries(a + b) == TextEntries(a) + TextEntries(b)
  {
    if b == [] {
      assert a + b == a;
    } else {
      assert (a + b)[..|a + b| - 1] == a + b[..|b| - 1];
      TextEntriesAppend(a, b[..|b| - 1]);
    }
  }

  /** The buffer only grows: by one entry per `add_text_file`, in call order; `finish` leaves it alone. */
  lemma {:induction false} PlayFiles(name: string, st: BuildState, calls: seq<BuilderCall>)
    ensures Play(name, st, calls).files == st.files + TextEntries(calls)
  {
    if calls != [] {
      PlayFiles(name, st, calls[..|calls| - 1]);
    }
  }

  /**
   * After N `add_text_file` calls on a fresh writer its buffer holds exactly
   * N entries, the k-th one being the k-th call's file with the fixed metadata.
   */
  lemma {:induction false} FreshWriterAfterAdds(name: string, archives: map<string, seq<Entry>>, calls: seq<BuilderCall>)
    requires forall k :: 0 <= k < |calls| ==> calls[k].AddTextFile?
    ensures var files := Play(name, BuildState([], archives), calls).files;
      |files| == |calls| &&
      forall k :: 0 <= k < |calls| ==>
        files[k] == Entry(calls[k].path, UID, GID, MODE, Encode(calls[k].content))
  {
    var files := Play(name, BuildState([], archives), calls).files;
    PlayFiles(name, BuildState([], archives), calls);
    AddsOnly(calls);
    assert files == TextEntries(calls);
    forall k | 0 <= k < |calls|
      ensures files[k] == Entry(calls[k].path, UID, GID, MODE, Encode(calls[k].content))
    {
      assert files[k] == TextEntry(calls[k].path, calls[k].content);
    }
  }

  lemma {:induction false} AddsOnly(calls: seq<BuilderCall>)
    requires forall k :: 0 <= k < |calls| ==> calls[k].AddTextFile?
    ensures |TextEntries(calls)| == |calls|
    ensures forall k :: 0 <= k < |calls| ==> TextEntries(calls)[k] == TextEntry(calls[k].path, calls[k].content)
  {
    if calls != [] {
      AddsOnly(calls[..|calls| - 1]);
    }
  }

  /** Calls that never `finish` leave the store as it was. */
  lemma {:induction false} NoFinishNoWrite(name: string, st: BuildState, calls: seq<BuilderCall>)
    requires forall k :: 0 <= k < |calls| ==> calls[k].AddTextFile?
    ensures Play(name, st, calls).archives == st.archives
  {
    if calls != [] {
      NoFinishNoWrite(name, st, calls[..|calls| - 1]);
    }
  }

  /** A writer only ever writes its own store file: every other path keeps its content. */
  lemma {:induction false} OtherPathsUntouched(name: string, st: BuildState, calls: seq<BuilderCall>, p: string)
    requires p != StorePath(name)
    ensures p in Play(name, st, calls).archives <==> p in st.archives
    ensures p in st.archives ==> Play(name, st, calls).archives[p] == st.archives[p]
  {
    if calls != [] {
      OtherPathsUntouched(name, st, calls[..|calls| - 1], p);
    }
  }

  /**
   * The store file holds what the last `finish` wrote: the buffer as it was
   * at that call, in buffer order, whatever files are added afterwards.
   */
  lemma LastFinishWins(name: string, st: BuildState, pre: seq<BuilderCall>, post: seq<BuilderCall>)
    requires forall k :: 0 <= k < |post| ==> post[k].AddTextFile?
    ensures var out := Play(name, st, pre + [Finish] + post);
      StorePath(name) in out.archives &&
      out.archives[StorePath(name)] == st.files + TextEntries(pre)
  {
    PlayAppend(name, st, pre + [Finish], post);
    PlayAppend(name, st, pre, [Finish]);
    PlayFiles(name, st, pre);
    NoFinishNoWrite(name, Play(name, st, pre + [Finish]), post);
  }

  /** `finish` copies the buffer, so a second `finish` writes the same entry sequence again. */
  lemma FinishTwice(name: string, st: BuildState, calls: seq<BuilderCall>)
    ensures Play(name, st, calls + [Finish, Finish]) == Play(name, st, calls + [Finish])
  {
    PlayAppend(name, st, calls, [Finish, Finish]);
    PlayAppend(name, st, calls, [Finish]);
    var mid := Play(name, st, calls);
    assert Play(name, mid, [Finish, Finish]) == Step(name, Play(name, mid, [Finish]), Finish);
  }
}
