// Blob keys, and the correspondence between stored images and rows.

module Blobs {
  import opened Domain
  import opened Inputs

  // A rendered image remembers what was rendered; a logo object holds the caller's bytes.
  datatype Blob = Picture(content: string, styling: Styling, logo: string, autoRaise: bool) | LogoBytes(bytes: string)

  // ---- keys ----

  // The random part of an id: what follows the first underscore, or all of it.
  function RandomPart(id: string): string {
    if '_' in id then AfterUnderscore(id) else id
  }

  function AfterUnderscore(id: string): string {
    if id == "" then "" else if id[0] == '_' then id[1..] else AfterUnderscore(id[1..])
  }

  function PadFour(s: string): (r: string)
    ensures |r| >= 4
    decreases 4 - |s|
  {
    if |s| < 4 then PadFour(s + "0") else s
  }

  function ShardFor(id: string): (r: string)
    ensures |r| == 6
  {
    var rnd := PadFour(RandomPart(id));
    rnd[0..2] + "/" + rnd[2..4] + "/"
  }

  function BlobKeyFor(id: string): string { "codes/" + ShardFor(id) + id + ".png" }

  function LogoKeyFor(id: string): string { "logos/" + ShardFor(id) + id }

  // Different ids never share a key, and an image key is never a logo key.
  lemma KeysIdentify(a: string, b: string)
    ensures BlobKeyFor(a) == BlobKeyFor(b) ==> a == b
    ensures LogoKeyFor(a) == LogoKeyFor(b) ==> a == b
    ensures BlobKeyFor(a) != LogoKeyFor(b)
    ensures BlobKeyFor(a) != "" && LogoKeyFor(a) != ""
  {
    assert BlobKeyFor(a)[12..|BlobKeyFor(a)| - 4] == a;
    assert BlobKeyFor(b)[12..|BlobKeyFor(b)| - 4] == b;
    assert LogoKeyFor(a)[12..] == a;
    assert LogoKeyFor(b)[12..] == b;
    assert BlobKeyFor(a)[0] == 'c' && LogoKeyFor(b)[0] == 'l';
  }

  // ---- what an image must show ----

  function ScanUrl(cfg: Config, shortCode: string): string { cfg.baseRaw + "/r/" + shortCode }

  // A direct code's image carries its destination, a dynamic one's the scan address.
  function Content(cfg: Config, c: Code): string {
    if c.mode == Direct then c.destination else ScanUrl(cfg, c.shortCode)
  }

  // Alike in everything a caller chose; the id, the level actually encoded and the logo's key are filled in later.
  predicate SameLook(a: Styling, b: Styling) {
    a == b.(id := a.id, ecLevelEffective := a.ecLevelEffective, logoBlobKey := a.logoBlobKey)
  }

  ghost predicate RowBlobs(cfg: Config, c: Code, blobs: map<string, Blob>) {
    && c.blobKey == BlobKeyFor(c.id) && c.blobKey in blobs
    && blobs[c.blobKey].Picture? && blobs[c.blobKey].content == Content(cfg, c)
    && SameLook(blobs[c.blobKey].styling, c.styling)
    && (c.styling.logoBlobKey == "" ==> blobs[c.blobKey].logo == "")
    && (c.styling.logoBlobKey != "" ==>
          && c.styling.logoBlobKey == LogoKeyFor(c.id) && c.styling.logoBlobKey in blobs
          && blobs[c.styling.logoBlobKey] == LogoBytes(blobs[c.blobKey].logo))
  }

  function KeysOf(c: Code): set<string> {
    if c.styling.logoBlobKey == "" then {c.blobKey} else {c.blobKey, c.styling.logoBlobKey}
  }

  ghost predicate KeyOwned(codes: map<string, Code>, k: string) {
    exists id :: id in codes && k in KeysOf(codes[id])
  }

  // Exactly the objects of the rows are stored, and each row's image shows what the row says.
  ghost predicate BlobsMatch(cfg: Config, codes: map<string, Code>, blobs: map<string, Blob>) {
    && (forall id :: id in codes ==> codes[id].id == id && RowBlobs(cfg, codes[id], blobs))
    && (forall k :: k in blobs ==> KeyOwned(codes, k))
  }

  // What is stored for a row: an image of its scan address, or of its destination if it is direct, in its styling, and
  // the logo's bytes if it has one...
  lemma ImageShowsRow(cfg: Config, codes: map<string, Code>, blobs: map<string, Blob>, id: string)
    requires BlobsMatch(cfg, codes, blobs) && id in codes
    ensures codes[id].blobKey in blobs && blobs[codes[id].blobKey].Picture?
    ensures var c, b := codes[id], blobs[codes[id].blobKey];
            && b.content == (if c.mode == Direct then c.destination else cfg.baseRaw + "/r/" + c.shortCode)
            && b.styling.fgColor == c.styling.fgColor && b.styling.bgColor == c.styling.bgColor
            && b.styling.moduleShape == c.styling.moduleShape && b.styling.marginModules == c.styling.marginModules
            && b.styling.sizePx == c.styling.sizePx && b.styling.ecLevel == c.styling.ecLevel
            && b.styling.logoScale == c.styling.logoScale
            && (c.styling.logoBlobKey == "" ==> b.logo == "")
            && (c.styling.logoBlobKey != "" ==>
                  c.styling.logoBlobKey in blobs && blobs[c.styling.logoBlobKey] == LogoBytes(b.logo))
  {
    hide BlobKeyFor, LogoKeyFor;
    assert RowBlobs(cfg, codes[id], blobs);
  }

  // ... and nothing else is stored.
  lemma NothingElseStored(cfg: Config, codes: map<string, Code>, blobs: map<string, Blob>, k: string)
    requires BlobsMatch(cfg, codes, blobs) && k in blobs
    ensures exists id :: id in codes && (k == codes[id].blobKey || k == codes[id].styling.logoBlobKey)
  {
    hide RowBlobs;
    assert KeyOwned(codes, k);
  }

  // Objects are sharded by the first four characters of the id's random part.
  lemma KeyLayout(kind: string, rnd: string)
    requires '_' !in kind && |rnd| >= 4
    ensures var id := kind + "_" + rnd;
            && BlobKeyFor(id) == "codes/" + rnd[0..2] + "/" + rnd[2..4] + "/" + id + ".png"
            && LogoKeyFor(id) == "logos/" + rnd[0..2] + "/" + rnd[2..4] + "/" + id
  {
    var id := kind + "_" + rnd;
    RandomPartFollows(kind, rnd);
    assert id[|kind|] == '_';
  }

  lemma {:induction false} RandomPartFollows(kind: string, rnd: string)
    requires '_' !in kind
    ensures AfterUnderscore(kind + "_" + rnd) == rnd
    decreases |kind|
  {
    var id := kind + "_" + rnd;
    if kind == "" {
      assert id[1..] == rnd;
    } else {
      assert id[1..] == kind[1..] + "_" + rnd;
      RandomPartFollows(kind[1..], rnd);
    }
  }

  lemma RowKeys(cfg: Config, c: Code, blobs: map<string, Blob>)
    requires RowBlobs(cfg, c, blobs)
    ensures KeysOf(c) <= {BlobKeyFor(c.id), LogoKeyFor(c.id)}
    ensures KeysOf(c) <= blobs.Keys
  {
  }

  // Objects of one row never collide with another row's.
  lemma KeysApart(cfg: Config, c: Code, blobs: map<string, Blob>, d: Code, more: map<string, Blob>)
    requires RowBlobs(cfg, c, blobs) && RowBlobs(cfg, d, more) && c.id != d.id
    ensures KeysOf(c) !! KeysOf(d)
  {
    hide RowBlobs, KeysOf, BlobKeyFor, LogoKeyFor;
    RowKeys(cfg, c, blobs);
    RowKeys(cfg, d, more);
    KeysIdentify(c.id, d.id);
    KeysIdentify(d.id, c.id);
  }

  lemma FreshIdHasNoBlobs(cfg: Config, codes: map<string, Code>, blobs: map<string, Blob>, id: string)
    requires BlobsMatch(cfg, codes, blobs) && id !in codes
    ensures BlobKeyFor(id) !in blobs && LogoKeyFor(id) !in blobs && "" !in blobs
  {
    hide RowBlobs, KeysOf, BlobKeyFor, LogoKeyFor;
    forall k | k in blobs ensures k != BlobKeyFor(id) && k != LogoKeyFor(id) && k != "" {
      assert KeyOwned(codes, k);
      var owner :| owner in codes && k in KeysOf(codes[owner]);
      RowKeys(cfg, codes[owner], blobs);
      KeysIdentify(owner, id);
      KeysIdentify(id, owner);
    }
  }

  lemma KeyUnused(cfg: Config, codes: map<string, Code>, blobs: map<string, Blob>, id: string)
    requires BlobsMatch(cfg, codes, blobs) && BlobKeyFor(id) !in blobs
    ensures id !in codes
  {
    hide BlobKeyFor;
  }

  // A row's objects depend only on the objects under its keys.
  lemma RowBlobsFrame(cfg: Config, c: Code, blobs: map<string, Blob>, more: map<string, Blob>)
    requires RowBlobs(cfg, c, blobs)
    requires forall k :: k in KeysOf(c) ==> k in more && k in blobs && more[k] == blobs[k]
    ensures RowBlobs(cfg, c, more)
  {
    hide Content;
    assert c.blobKey in KeysOf(c);
  }

  // What storing a row's logo, if any, and then its image adds to the store.
  lemma RowObjectsAdded(before: map<string, Blob>, c: Code, logo: Blob, image: Blob, after: map<string, Blob>)
    requires c.blobKey !in before && c.styling.logoBlobKey !in before && c.blobKey != c.styling.logoBlobKey
    requires after == (if c.styling.logoBlobKey == "" then before
                       else before[c.styling.logoBlobKey := logo])[c.blobKey := image]
    ensures after - KeysOf(c) == before && after.Keys == before.Keys + KeysOf(c)
    ensures forall k :: k in before ==> k in after && after[k] == before[k]
  {
  }

  // Storing a new row's objects keeps the correspondence for the larger set of rows.
  lemma AddRowBlobs(cfg: Config, codes: map<string, Code>, blobs: map<string, Blob>, c: Code, more: map<string, Blob>)
    requires BlobsMatch(cfg, codes, blobs) && c.id !in codes && RowBlobs(cfg, c, more)
    requires more.Keys == blobs.Keys + KeysOf(c) && forall k :: k in blobs ==> more[k] == blobs[k]
    ensures BlobsMatch(cfg, codes[c.id := c], more)
  {
    hide RowBlobs, KeysOf;
    var all := codes[c.id := c];
    forall id | id in all ensures all[id].id == id && RowBlobs(cfg, all[id], more) {
      if id != c.id {
        RowKeys(cfg, codes[id], blobs);
        RowBlobsFrame(cfg, codes[id], blobs, more);
      }
    }
    forall k | k in more ensures KeyOwned(all, k) {
      if k in blobs {
        assert KeyOwned(codes, k);
        var id :| id in codes && k in KeysOf(codes[id]);
        assert id in all && all[id] == codes[id];
      } else {
        assert c.id in all && k in KeysOf(all[c.id]);
      }
    }
  }

  // Removing a row's objects restores the correspondence for the rows without it.
  lemma RemoveRowBlobs(cfg: Config, codes: map<string, Code>, blobs: map<string, Blob>, c: Code)
    requires c.id !in codes && BlobsMatch(cfg, codes[c.id := c], blobs)
    ensures BlobsMatch(cfg, codes, blobs - KeysOf(c))
  {
    hide RowBlobs, KeysOf;
    var all := codes[c.id := c];
    assert RowBlobs(cfg, all[c.id], blobs);
    forall id | id in codes ensures codes[id].id == id && RowBlobs(cfg, codes[id], blobs - KeysOf(c)) {
      assert all[id] == codes[id] && RowBlobs(cfg, all[id], blobs);
      KeysApart(cfg, c, blobs, codes[id], blobs);
      RowKeys(cfg, codes[id], blobs);
      RowBlobsFrame(cfg, codes[id], blobs, blobs - KeysOf(c));
    }
    forall k | k in blobs - KeysOf(c) ensures KeyOwned(codes, k) {
      assert KeyOwned(all, k);
      var id :| id in all && k in KeysOf(all[id]);
      assert id in codes && codes[id] == all[id];
    }
  }

  // The correspondence only looks at a row's keys and content, which edits through the service keep.
  predicate SameImage(cfg: Config, c: Code, d: Code) {
    && d.id == c.id && d.blobKey == c.blobKey && d.styling.logoBlobKey == c.styling.logoBlobKey
    && Content(cfg, d) == Content(cfg, c) && SameLook(c.styling, d.styling)
  }

  lemma SameImageSameBlobs(cfg: Config, c: Code, d: Code, blobs: map<string, Blob>)
    requires RowBlobs(cfg, c, blobs) && SameImage(cfg, c, d)
    ensures RowBlobs(cfg, d, blobs) && KeysOf(d) == KeysOf(c)
  {
    hide Content;
  }

  lemma SameImagesMatch(cfg: Config, codes: map<string, Code>, others: map<string, Code>, blobs: map<string, Blob>)
    requires BlobsMatch(cfg, codes, blobs) && codes.Keys == others.Keys
    requires forall id :: id in codes ==> SameImage(cfg, codes[id], others[id])
    ensures BlobsMatch(cfg, others, blobs)
  {
    hide RowBlobs, KeysOf;
    forall id | id in others ensures others[id].id == id && RowBlobs(cfg, others[id], blobs) {
      assert RowBlobs(cfg, codes[id], blobs) && SameImage(cfg, codes[id], others[id]);
      SameImageSameBlobs(cfg, codes[id], others[id], blobs);
    }
    hide SameImage;
    forall k | k in blobs ensures KeyOwned(others, k) {
      assert KeyOwned(codes, k);
      var id :| id in codes && k in KeysOf(codes[id]);
      assert SameImage(cfg, codes[id], others[id]);
      SameImageSameBlobs(cfg, codes[id], others[id], blobs);
      assert k in KeysOf(others[id]);
    }
  }
}
