/**
 * The store of artifacts with its quotas: at most 16 artifacts and 64 MiB for an owner
 * and 256 MiB in all, transfers in progress included.
 */
module ArtifactStore {
  import opened Options
  import opened Artifact
  import opened MapSum

  const PER_OWNER := 16
  const OWNER_BYTES := 67108864
  const TOTAL_BYTES := 268435456
  /** Times are milliseconds. */
  const TTL := 300000
  const SKEW := 10000

  type Items = map<string, Item>

  // ---- quotas ----

  function Bytes(): Item -> nat {
    (i: Item) => if i.d.size < 0 then 0 else i.d.size
  }

  function OwnerBytes(owner: string): Item -> nat {
    (i: Item) => if i.owner != owner || i.d.size < 0 then 0 else i.d.size
  }

  function OwnerCount(owner: string): Item -> nat {
    (i: Item) => if i.owner == owner then 1 else 0
  }

  ghost predicate WithinQuota(items: Items) {
    && Sum(items, Bytes()) <= TOTAL_BYTES
    && forall owner :: Sum(items, OwnerCount(owner)) <= PER_OWNER && Sum(items, OwnerBytes(owner)) <= OWNER_BYTES
  }

  lemma RemoveKeepsQuota(items: Items, id: string)
    requires WithinQuota(items)
    ensures WithinQuota(items - {id})
  {
    if id in items {
      SumRemove(items, Bytes(), id);
      forall owner
        ensures Sum(items - {id}, OwnerCount(owner)) <= PER_OWNER && Sum(items - {id}, OwnerBytes(owner)) <= OWNER_BYTES
      {
        SumRemove(items, OwnerCount(owner), id);
        SumRemove(items, OwnerBytes(owner), id);
      }
    } else {
      assert items - {id} == items;
    }
  }

  /** A change that keeps the owner and the declared size of an item. */
  lemma UpdateKeepsQuota(items: Items, id: string, i: Item)
    requires WithinQuota(items) && id in items && i.owner == items[id].owner && i.d == items[id].d
    ensures WithinQuota(items[id := i])
  {
    SumPut(items, Bytes(), id, i);
    forall owner
      ensures Sum(items[id := i], OwnerCount(owner)) <= PER_OWNER && Sum(items[id := i], OwnerBytes(owner)) <= OWNER_BYTES
    {
      SumPut(items, OwnerCount(owner), id, i);
      SumPut(items, OwnerBytes(owner), id, i);
    }
  }

  /** There is room for another size bytes of the owner. */
  ghost predicate HasRoom(items: Items, owner: string, size: int) {
    && Sum(items, OwnerCount(owner)) < PER_OWNER
    && Sum(items, OwnerBytes(owner)) + size <= OWNER_BYTES
    && Sum(items, Bytes()) + size <= TOTAL_BYTES
  }

  lemma InsertKeepsQuota(items: Items, id: string, i: Item)
    requires WithinQuota(items) && id !in items && i.d.size >= 0 && HasRoom(items, i.owner, i.d.size)
    ensures WithinQuota(items[id := i])
  {
    SumPut(items, Bytes(), id, i);
    forall owner
      ensures Sum(items[id := i], OwnerCount(owner)) <= PER_OWNER && Sum(items[id := i], OwnerBytes(owner)) <= OWNER_BYTES
    {
      SumPut(items, OwnerCount(owner), id, i);
      SumPut(items, OwnerBytes(owner), id, i);
    }
  }

  // ---- what a transfer may declare ----

  /** Numbers and times are None when they are missing or malformed. */
  datatype Declared = Declared(id: string, kind: string, mime: string, size: Option<int>, chunks: Option<int>,
                               sha256: string, created: Option<int>, expires: Option<int>)

  predicate IsIdChar(c: char) {
    'A' <= c <= 'Z' || 'a' <= c <= 'z' || '0' <= c <= '9' || c == '_' || c == '-'
  }

  predicate IsArtifactId(s: string) {
    |s| >= 4 && s[..4] == "art_" && 32 <= |s| - 4 <= 64 && forall i :: 4 <= i < |s| ==> IsIdChar(s[i])
  }

  predicate IsDigest(s: string) {
    |s| == 64 && forall i :: 0 <= i < 64 ==> 'a' <= s[i] <= 'f' || '0' <= s[i] <= '9'
  }

  predicate IsMimeChar(c: char) {
    'A' <= c <= 'Z' || 'a' <= c <= 'z' || '0' <= c <= '9' || c in "!#$&^_.+-"
  }

  predicate IsMimeType(s: string) {
    exists k :: 0 < k < |s| - 1 && s[k] == '/' && forall i :: 0 <= i < |s| && i != k ==> IsMimeChar(s[i])
  }

  predicate MimeFits(kind: string, mime: string) {
    || (kind == "screenshot" && |mime| >= 6 && mime[..6] == "image/")
    || (kind == "har" && mime == "application/json")
    || (kind == "resource" && |mime| <= 120 && IsMimeType(mime))
  }

  predicate Acceptable(a: Declared, now: int) {
    && IsArtifactId(a.id) && a.size.Some? && a.chunks.Some?
    && 0 <= a.size.value <= MAX_BYTES && (a.kind != "resource" ==> a.size.value != 0)
    && a.chunks.value == ChunkCount(a.size.value)
    && IsDigest(a.sha256) && MimeFits(a.kind, a.mime)
    && a.created.Some? && a.expires.Some?
    && now - TTL <= a.created.value <= now + SKEW
    && now < a.expires.value <= now + TTL && a.created.value < a.expires.value
  }

  function NewItem(a: Declared, request: string, owner: string, extension: string): Item
    requires a.size.Some? && a.chunks.Some? && a.expires.Some?
  {
    Item(Descriptor(a.id, a.kind, a.mime, a.size.value, a.sha256, a.chunks.value), request, owner, extension,
         a.expires.value, 0, 0, "", true)
  }

  datatype Answer = Done | Invalid | OverQuota | NotFound | BadRange | Failed

  // ---- the store ----

  predicate Doomed(i: Item, request: string, owner: string, extension: string, preserve: bool) {
    || (request != "" && i.request == request && (!preserve || i.open))
    || (owner != "" && i.owner == owner)
    || (extension != "" && i.extension == extension)
  }

  /** The items that survive a cleanup, when only the ids outside the set were looked at. */
  function Spared(items: Items, ids: set<string>, request: string, owner: string, extension: string, preserve: bool): Items {
    map id | id in items && (id in ids || !Doomed(items[id], request, owner, extension, preserve)) :: items[id]
  }

  lemma SparedStep(items: Items, ids: set<string>, request: string, owner: string, extension: string, preserve: bool, id: string)
    requires id in ids && id in items
    ensures Spared(items, ids - {id}, request, owner, extension, preserve) ==
      if Doomed(items[id], request, owner, extension, preserve) then Spared(items, ids, request, owner, extension, preserve) - {id}
      else Spared(items, ids, request, owner, extension, preserve)
    ensures id in Spared(items, ids, request, owner, extension, preserve)
    ensures Spared(items, ids, request, owner, extension, preserve)[id] == items[id]
  {
    hide Doomed;
  }

  lemma SparedAll(items: Items, request: string, owner: string, extension: string, preserve: bool)
    ensures Spared(items, items.Keys, request, owner, extension, preserve) == items
  {}

  function Live(items: Items, now: int): Items {
    map id | id in items && items[id].expires > now :: items[id]
  }

  class Store {
    const c: Codec
    var items: Items

    ghost predicate Valid()
      reads this
    {
      WithinQuota(items) && forall id :: id in items ==> Sound(c, items[id]) && items[id].d.id == id
    }

    constructor (c: Codec)
      ensures Valid() && this.c == c && items == map[]
    {
      this.c := c;
      items := map[];
    }

    method Remove(id: string)
      requires Valid()
      modifies this
      ensures Valid() && items == old(items) - {id}
    {
      hide WithinQuota, Sound;
      RemoveKeepsQuota(items, id);
      items := items - {id};
    }

    method Prune(now: int)
      requires Valid()
      modifies this
      ensures Valid() && items == Live(old(items), now)
    {
      hide WithinQuota, Sound;
      var ids := items.Keys;
      while ids != {}
        invariant Valid() && ids <= old(items).Keys
        invariant items == map id | id in old(items) && (id in ids || old(items)[id].expires > now) :: old(items)[id]
        decreases |ids|
      {
        var id :| id in ids;
        ids := ids - {id};
        if items[id].expires <= now {
          Remove(id);
        }
      }
    }

    /** Exactly the items that belong to what has gone are removed. */
    method Cleanup(request: string, owner: string, extension: string, preserve: bool)
      requires Valid()
      modifies this
      ensures Valid()
      ensures items == Spared(old(items), {}, request, owner, extension, preserve)
    {
      hide WithinQuota, Sound, Doomed, Spared;
      var ids := items.Keys;
      SparedAll(items, request, owner, extension, preserve);
      while ids != {}
        invariant Valid() && ids <= old(items).Keys
        invariant items == Spared(old(items), ids, request, owner, extension, preserve)
        decreases |ids|
      {
        var id :| id in ids;
        SparedStep(old(items), ids, request, owner, extension, preserve, id);
        ids := ids - {id};
        if Doomed(items[id], request, owner, extension, preserve) {
          Remove(id);
        }
      }
    }

    method Usage(owner: string) returns (count: nat, owned: nat, total: nat)
      requires Valid()
      ensures count == Sum(items, OwnerCount(owner)) && owned == Sum(items, OwnerBytes(owner)) && total == Sum(items, Bytes())
    {
      hide WithinQuota;
      count, owned, total := 0, 0, 0;
      var rest := items;
      while rest != map[]
        invariant rest.Keys <= items.Keys && forall id :: id in rest ==> rest[id] == items[id]
        invariant count + Sum(rest, OwnerCount(owner)) == Sum(items, OwnerCount(owner))
        invariant owned + Sum(rest, OwnerBytes(owner)) == Sum(items, OwnerBytes(owner))
        invariant total + Sum(rest, Bytes()) == Sum(items, Bytes())
        decreases |rest|
      {
        var id :| id in rest;
        SumRemove(rest, OwnerCount(owner), id);
        SumRemove(rest, OwnerBytes(owner), id);
        SumRemove(rest, Bytes(), id);
        FewerItems(rest, id);
        total := total + rest[id].d.size;
        if rest[id].owner == owner {
          count, owned := count + 1, owned + rest[id].d.size;
        }
        rest := rest - {id};
      }
    }

    /** A transfer begins exactly when it is well declared, new and within every quota. */
    method Begin(a: Declared, request: string, owner: string, extension: string, now: int, fileOpens: bool) returns (r: Answer)
      requires Valid()
      modifies this
      ensures Valid()
      ensures var live := Live(old(items), now);
        if !Acceptable(a, now) || a.id in live then r == Invalid && items == live
        else if !HasRoom(live, owner, a.size.value) then r == OverQuota && items == live
        else if !fileOpens then r == Failed && items == live
        else r == Done && items == live[a.id := NewItem(a, request, owner, extension)]
    {
      hide WithinQuota, Sum, IsArtifactId, IsDigest, MimeFits, ChunkCount;
      Prune(now);
      if !Acceptable(a, now) || a.id in items {
        return Invalid;
      }
      var count, owned, total := Usage(owner);
      if count >= PER_OWNER || owned + a.size.value > OWNER_BYTES || total + a.size.value > TOTAL_BYTES {
        return OverQuota;
      }
      if !fileOpens {
        return Failed;
      }
      InsertKeepsQuota(items, a.id, NewItem(a, request, owner, extension));
      NewIsSound(c, a, request, owner, extension, now);
      items := items[a.id := NewItem(a, request, owner, extension)];
      return Done;
    }

    /** A chunk is appended exactly when it is the next one, canonical, not too long and fits. */
    method Write(id: string, index: int, data: string, fileWrites: bool) returns (r: Answer)
      requires Valid()
      modifies this
      ensures Valid()
      ensures if id !in old(items) || !ChunkFits(c, old(items)[id], index, data) then r == Invalid && items == old(items)
        else if !fileWrites then r == Failed && items == old(items) - {id}
        else r == Done && items == old(items)[id := Written(c, old(items)[id], data)]
    {
      hide WithinQuota;
      if id !in items || !items[id].open || index != items[id].next || |data| > (CHUNK + 2) / 3 * 4 {
        return Invalid;
      }
      var i := items[id];
      var b := c.decode(data);
      if b.None? || c.encode(b.value) != data || |b.value| == 0 || |b.value| > CHUNK || i.written + |b.value| > i.d.size {
        return Invalid;
      }
      if !fileWrites {
        Remove(id);
        return Failed;
      }
      i := i.(content := i.content + b.value);
      i := i.(written := i.written + |b.value|, next := i.next + 1);
      UpdateKeepsQuota(items, id, i);
      items := items[id := i];
      return Done;
    }

    /** A transfer is committed exactly when all of it has arrived with the declared digest; otherwise it is dropped. */
    method Commit(id: string, fileCloses: bool, fileRenames: bool) returns (r: Answer)
      requires Valid()
      modifies this
      ensures Valid()
      ensures if id !in old(items) || !old(items)[id].open then r == Invalid && items == old(items)
        else if !Complete(c, old(items)[id]) then r == Invalid && items == old(items) - {id}
        else if !fileCloses || !fileRenames then r == Failed && items == old(items) - {id}
        else r == Done && items == old(items)[id := Sealed(old(items)[id])]
    {
      hide WithinQuota;
      if id !in items || !items[id].open {
        return Invalid;
      }
      var i := items[id];
      if i.written != i.d.size || i.next != i.d.chunks || c.hash(i.content) != i.d.sha256 {
        Remove(id);
        return Invalid;
      }
      if !fileCloses || !fileRenames {
        Remove(id);
        return Failed;
      }
      UpdateKeepsQuota(items, id, i.(open := false));
      items := items[id := i.(open := false)];
      return Done;
    }

    predicate Owned(live: Items, id: string, owner: string) {
      id in live && !live[id].open && live[id].owner == owner
    }

    /** Only the owner of a committed, unexpired artifact is given a page of it. */
    method Read(id: string, owner: string, offset: int, limit: int, now: int, fileReads: bool) returns (r: Answer, page: Option<Page>)
      requires Valid()
      modifies this
      ensures Valid() && items == Live(old(items), now)
      ensures if !Owned(items, id, owner) then r == NotFound && page == None
        else if offset < 0 || offset > MAX_SAFE || limit < 1 || limit > CHUNK then r == BadRange && page == None
        else if !fileReads then r == Failed && page == None
        else r == Done && Sound(c, items[id]) && page == Some(PageOf(c, items[id], offset, limit))
    {
      hide WithinQuota;
      Prune(now);
      if id !in items || items[id].open || items[id].owner != owner {
        return NotFound, None;
      }
      if offset < 0 || offset > MAX_SAFE || limit < 1 || limit > CHUNK {
        return BadRange, None;
      }
      if !fileReads {
        return Failed, None;
      }
      var i := items[id];
      var from := if offset > i.d.size then i.d.size else offset;
      var count := if limit < i.d.size - from then limit else i.d.size - from;
      var bytes := i.content[from..from + count];
      var next: Option<int> := None;
      if from + count < i.d.size {
        next := Some(from + count);
      }
      return Done, Some(Page(id, c.encode(bytes), from, count, next));
    }

    method Delete(id: string, owner: string, now: int, fileRemoves: bool) returns (r: Answer)
      requires Valid()
      modifies this
      ensures Valid()
      ensures var live := Live(old(items), now);
        if Owned(live, id, owner) then r == (if fileRemoves then Done else Failed) && items == live - {id}
        else r == NotFound && items == live
    {
      hide WithinQuota, Sound;
      Prune(now);
      if id !in items || items[id].open || items[id].owner != owner {
        return NotFound;
      }
      Remove(id);
      return if fileRemoves then Done else Failed;
    }
  }

  lemma NewIsSound(c: Codec, a: Declared, request: string, owner: string, extension: string, now: int)
    requires Acceptable(a, now)
    ensures Sound(c, NewItem(a, request, owner, extension))
  {}
}
