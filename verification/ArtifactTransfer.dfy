/**
 * An artifact from end to end: the extension uploads it to the store in chunks, and the
 * client that asked for it downloads it from the store page by page.
 */
module ArtifactTransfer {
  import opened Options
  import opened Artifact
  import opened ArtifactStore

  /** The whole transfer is as declared: every chunk is accepted and the sum is complete. */
  predicate Arrives(c: Codec, i: Item, chunks: seq<string>) {
    WriteAll(c, i, chunks).Some? && Complete(c, WriteAll(c, i, chunks).value)
  }

  // ---- what others do to the store ----

  /** One call of the store, with the outcome of its file operations. */
  datatype Op =
    | Begins(a: Declared, request: string, owner: string, extension: string, now: int, opens: bool)
    | Writes(id: string, index: int, data: string, done: bool)
    | Commits(id: string, closes: bool, renames: bool)
    | Reads(id: string, owner: string, offset: int, limit: int, now: int, done: bool)
    | Deletes(id: string, owner: string, now: int, done: bool)
    | Cleans(request: string, owner: string, extension: string, preserve: bool)
    | Prunes(now: int)

  /**
   * The call does not concern the artifact: it comes before the artifact expires, is not
   * a chunk, commit or deletion of it, and does not clean up after its request, owner or
   * extension. Another attempt to begin it, reading it and a deletion by someone else
   * are harmless.
   */
  predicate Harmless(op: Op, id: string, i: Item) {
    match op
    case Begins(_, _, _, _, now, _) => now < i.expires
    case Writes(other, _, _, _) => other != id || !i.open
    case Commits(other, _, _) => other != id || !i.open
    case Reads(_, _, _, _, now, _) => now < i.expires
    case Deletes(other, owner, now, _) => now < i.expires && (other != id || owner != i.owner || i.open)
    case Cleans(request, owner, extension, preserve) => !Doomed(i, request, owner, extension, preserve)
    case Prunes(now) => now < i.expires
  }

  predicate AllHarmless(ops: seq<Op>, id: string, i: Item) {
    forall op :: op in ops ==> Harmless(op, id, i)
  }

  method Other(store: Store, op: Op)
    requires store.Valid()
    modifies store
    ensures store.Valid()
    ensures forall id :: id in old(store.items) && Harmless(op, id, old(store.items)[id]) ==>
      id in store.items && store.items[id] == old(store.items)[id]
  {
    hide WithinQuota, Sound, Acceptable, HasRoom, ChunkFits, Complete, Doomed, PageOf;
    match op {
      case Begins(a, request, owner, extension, now, opens) =>
        var answer := store.Begin(a, request, owner, extension, now, opens);
      case Writes(id, index, data, done) =>
        ghost var before := store.items;
        var answer := store.Write(id, index, data, done);
        if id in before {
          OnlyOpenIsWritten(store.c, before[id], index, data);
        }
      case Commits(id, closes, renames) =>
        var answer := store.Commit(id, closes, renames);
      case Reads(id, owner, offset, limit, now, done) =>
        var answer, page := store.Read(id, owner, offset, limit, now, done);
      case Deletes(id, owner, now, done) =>
        var answer := store.Delete(id, owner, now, done);
      case Cleans(request, owner, extension, preserve) =>
        store.Cleanup(request, owner, extension, preserve);
      case Prunes(now) =>
        store.Prune(now);
    }
  }

  lemma OnlyOpenIsWritten(c: Codec, i: Item, index: int, data: string)
    ensures ChunkFits(c, i, index, data) ==> i.open
  {}

  /** Any calls leave the artifacts alone that they are harmless to. */
  method Others(store: Store, ops: seq<Op>)
    requires store.Valid()
    modifies store
    ensures store.Valid()
    ensures forall id :: id in old(store.items) && AllHarmless(ops, id, old(store.items)[id]) ==>
      id in store.items && store.items[id] == old(store.items)[id]
  {
    hide WithinQuota, Sound, Harmless;
    for k := 0 to |ops|
      invariant store.Valid()
      invariant forall id :: id in old(store.items) && AllHarmless(ops, id, old(store.items)[id]) ==>
        id in store.items && store.items[id] == old(store.items)[id]
    {
      assert ops[k] in ops;
      Other(store, ops[k]);
    }
  }

  /** However often the others come in between, they are harmless to the artifact. */
  ghost predicate Undisturbed(others: nat -> seq<Op>, id: string, i: Item) {
    forall k :: AllHarmless(others(k), id, i)
  }

  lemma UndisturbedNow(others: nat -> seq<Op>, id: string, i: Item, j: Item, k: nat)
    requires Undisturbed(others, id, i) && SameTransfer(i, j)
    ensures AllHarmless(others(k), id, j)
  {
    forall op | op in others(k)
      ensures Harmless(op, id, j)
    {
      assert AllHarmless(others(k), id, i);
      assert Harmless(op, id, i);
    }
  }

  /** The two are the same transfer with more or less of its content. */
  predicate SameTransfer(i: Item, j: Item) {
    j == i.(content := j.content, written := j.written, next := j.next)
  }

  // ---- the download ----

  /** The store holds the artifact for its owner, and each request comes before it expires. */
  ghost predicate Available(c: Codec, items: Items, d: Descriptor, owner: string, clock: nat -> int, readable: nat -> bool) {
    && Lawful(c) && d.id in items && items[d.id].d == d && !items[d.id].open && items[d.id].owner == owner
    && forall k :: clock(k) < items[d.id].expires && readable(k)
  }

  lemma AvailableNow(c: Codec, items: Items, d: Descriptor, owner: string, clock: nat -> int, readable: nat -> bool, k: nat)
    requires Available(c, items, d, owner, clock, readable)
    ensures Lawful(c) && d.id in items && items[d.id].d == d && !items[d.id].open && items[d.id].owner == owner
    ensures clock(k) < items[d.id].expires && readable(k)
  {}

  /** One request for a page; it is answered while the artifact has not expired. */
  method Ask(store: Store, id: string, owner: string, offset: int, now: int, readable: bool) returns (page: Option<Page>)
    requires store.Valid() && 0 <= offset <= MAX_SAFE
    modifies store
    ensures store.Valid()
    ensures (id in old(store.items) && !old(store.items)[id].open && old(store.items)[id].owner == owner
             && now < old(store.items)[id].expires && readable) ==>
      && Sound(store.c, old(store.items)[id]) && id in store.items && store.items[id] == old(store.items)[id]
      && page == Some(PageOf(store.c, store.items[id], offset, CHUNK))
  {
    hide WithinQuota, Sound, PageOf;
    var answer: Answer;
    answer, page := store.Read(id, owner, offset, CHUNK, now, readable);
  }

  /**
   * The client's loop with the store as its server. clock gives the time of each request,
   * readable whether the store can read its file then, and others what happens before it.
   */
  method Fetch(store: Store, d: Descriptor, kind: string, owner: string, clock: nat -> int, readable: nat -> bool,
               others: nat -> seq<Op>) returns (r: Option<string>)
    requires store.Valid()
    modifies store
    ensures store.Valid()
    ensures r.Some? ==> |r.value| == d.size && store.c.hash(r.value) == d.sha256
    ensures Expected(d, kind) && Available(store.c, old(store.items), d, owner, clock, readable)
      && Undisturbed(others, d.id, old(store.items)[d.id])
      ==> r == Some(old(store.items)[d.id].content)
  {
    var c := store.c;
    ghost var before := store.items;
    ghost var honest := Expected(d, kind) && Available(c, before, d, owner, clock, readable) && Undisturbed(others, d.id, before[d.id]);
    ghost var i := if honest then before[d.id] else Item(d, "", "", "", 0, 0, 0, "", true);
    assert honest ==> Sound(c, i);
    hide Lawful, WithinQuota, PageOf, Take, Sound, Available, Undisturbed, AllHarmless;
    if honest {
      AvailableNow(c, before, d, owner, clock, readable, 0);
      SoundSize(c, i);
    }
    if !Expected(d, kind) || d.size < 0 || d.size > MAX_DOWNLOAD {
      return None;
    }
    var out := "";
    var offset := 0;
    var done := false;
    var k := 0;
    while offset < d.size && !done
      invariant store.Valid()
      invariant 0 <= offset
      invariant honest ==> Sound(c, i) && d.id in store.items && store.items[d.id] == i
      invariant honest && !done ==> offset <= d.size && out == i.content[..offset]
      invariant honest && done ==> out == i.content
      decreases if done then 0 else 1, d.size - offset
    {
      if honest {
        AvailableNow(c, before, d, owner, clock, readable, k);
        UndisturbedNow(others, d.id, i, i, k);
      }
      Others(store, others(k));
      var page := Ask(store, d.id, owner, offset, clock(k), readable(k));
      if honest {
        SoundSize(c, i);
        HonestPage(c, i, offset);
      }
      k := k + 1;
      var taken := Take(c, d, offset, page);
      match taken {
        case Broken =>
          return None;
        case Last(data) =>
          out := out + data;
          done := true;
        case More(data, next) =>
          TakesForward(c, d, offset, page);
          out := out + data;
          offset := next;
      }
    }
    if honest {
      AvailableNow(c, before, d, owner, clock, readable, 0);
      SoundSize(c, i);
      assert i.content[..|i.content|] == i.content;
    }
    if |out| != d.size || c.hash(out) != d.sha256 {
      return None;
    }
    return Some(out);
  }

  lemma SoundSize(c: Codec, i: Item)
    requires Sound(c, i)
    ensures 0 <= i.d.size <= MAX_BYTES
    ensures !i.open ==> |i.content| == i.d.size && c.hash(i.content) == i.d.sha256
  {}

  // ---- the upload ----

  /** The chunks are sent in turn, numbered from 0, and the commit follows the last one; others come in between. */
  method Upload(store: Store, id: string, chunks: seq<string>, others: nat -> seq<Op>) returns (done: bool)
    requires store.Valid() && id in store.items && store.items[id].open && store.items[id].next == 0
    modifies store
    ensures store.Valid()
    ensures Undisturbed(others, id, old(store.items)[id]) ==>
      && (done <==> Arrives(store.c, old(store.items)[id], chunks))
      && (done ==> id in store.items && store.items[id] == Sealed(WriteAll(store.c, old(store.items)[id], chunks).value))
  {
    hide WithinQuota, Sound, ChunkFits, Complete, Written, Undisturbed, AllHarmless;
    var c := store.c;
    ghost var start := store.items[id];
    ghost var fair := Undisturbed(others, id, start);
    for k := 0 to |chunks|
      invariant store.Valid()
      invariant fair ==>
        && id in store.items && SameTransfer(start, store.items[id]) && store.items[id].next == k
        && WriteAll(c, store.items[id], chunks[k..]) == WriteAll(c, start, chunks)
    {
      if fair {
        UndisturbedNow(others, id, start, store.items[id], k);
      }
      Others(store, others(k));
      assert chunks[k..][0] == chunks[k] && chunks[k..][1..] == chunks[k + 1..];
      ghost var i := if id in store.items then store.items[id] else start;
      var answer := store.Write(id, k, chunks[k], true);
      if answer != Done {
        return false;
      }
      WrittenIsSame(c, i, k, chunks[k]);
    }
    assert chunks[|chunks|..] == [];
    if fair {
      UndisturbedNow(others, id, start, store.items[id], |chunks|);
    }
    Others(store, others(|chunks|));
    var answer := store.Commit(id, true, true);
    return answer == Done;
  }

  lemma WrittenIsSame(c: Codec, i: Item, k: int, data: string)
    ensures ChunkFits(c, i, k, data) ==> c.decode(data).Some? && SameTransfer(i, Written(c, i, data)) && Written(c, i, data).next == k + 1
  {}

  // ---- end to end ----

  /**
   * Upload then download is the identity, whatever calls for other artifacts come in
   * between. The upload is accepted exactly when it is well declared, new, within every
   * quota and arrives as declared; then the client of its owner receives the
   * concatenation of the decoded chunks, if it asks before the artifact expires.
   */
  method Transfer(store: Store, a: Declared, request: string, owner: string, extension: string, now: int, chunks: seq<string>,
                  clock: nat -> int, readable: nat -> bool, uploading: nat -> seq<Op>, downloading: nat -> seq<Op>)
    returns (accepted: bool, r: Option<string>)
    requires store.Valid()
    modifies store
    ensures store.Valid()
    ensures accepted ==> Acceptable(a, now) && a.id !in Live(old(store.items), now) && HasRoom(Live(old(store.items), now), owner, a.size.value)
    ensures Acceptable(a, now) && Undisturbed(uploading, a.id, NewItem(a, request, owner, extension)) ==>
      (accepted <==> a.id !in Live(old(store.items), now) && HasRoom(Live(old(store.items), now), owner, a.size.value)
                     && Arrives(store.c, NewItem(a, request, owner, extension), chunks))
    ensures accepted && Lawful(store.c) && (forall k :: clock(k) < a.expires.value && readable(k))
      && Undisturbed(uploading, a.id, NewItem(a, request, owner, extension))
      && Undisturbed(downloading, a.id, Sealed(NewItem(a, request, owner, extension)))
      ==> r == Some(Decoded(store.c, chunks))
    ensures r.Some? ==> accepted && store.c.hash(r.value) == a.sha256
  {
    hide Acceptable, HasRoom, WithinQuota, Sound, Complete, Lawful, WriteAll, Decoded, Undisturbed, Live;
    if Acceptable(a, now) {
      AcceptedIsExpected(a, now);
    }
    var begun := store.Begin(a, request, owner, extension, now, true);
    if begun != Done {
      return false, None;
    }
    ghost var i := NewItem(a, request, owner, extension);
    assert store.items[a.id] == i && Sound(store.c, i);
    accepted := Upload(store, a.id, chunks, uploading);
    if !accepted {
      return false, None;
    }
    if Undisturbed(uploading, a.id, i) {
      UploadSeals(store.c, i, chunks);
      if Undisturbed(downloading, a.id, Sealed(i)) {
        UndisturbedSame(downloading, a.id, Sealed(i), store.items[a.id]);
      }
    }
    r := Fetch(store, Descriptor(a.id, a.kind, a.mime, a.size.value, a.sha256, a.chunks.value), a.kind, owner, clock, readable,
               downloading);
  }

  lemma UndisturbedSame(others: nat -> seq<Op>, id: string, i: Item, j: Item)
    requires Undisturbed(others, id, i) && SameTransfer(i, j)
    ensures Undisturbed(others, id, j)
  {
    hide AllHarmless, SameTransfer;
    forall k: nat
      ensures AllHarmless(others(k), id, j)
    {
      UndisturbedNow(others, id, i, j, k);
    }
  }

  lemma AcceptedIsExpected(a: Declared, now: int)
    requires Acceptable(a, now)
    ensures a.size.Some? && a.chunks.Some? && a.expires.Some?
    ensures Expected(Descriptor(a.id, a.kind, a.mime, a.size.value, a.sha256, a.chunks.value), a.kind)
  {
    hide IsDigest, ChunkCount;
  }
}
