/** The image loader of headers/Loader.h: a registry of named datasets, each
    with a pixel buffer of TOTAL_IMAGES slots and a label array, and one
    ring buffer (head, tail, count) shared by the producer (Put, fed by the
    Loaders thread) and the consumer (Get).

    The mutex and the two condition variables are not modelled as such: a
    wait becomes the precondition that the waited-for condition already
    holds. Decoding and resizing an image file (stb) is an input: a function
    from the file's path to what the decoder produced. */
module Loader {
  import opened Wrappers
  import Paths
  import Csv
  import Sampling

  newtype byte = x: int | 0 <= x < 256

  /** 2^32: the class sizes and the total are uint32_t. */
  const U32: nat := 0x1_0000_0000

  datatype LoaderError =
    | NoActiveDataset                   // CheckDatasetValid
    | DatasetAlreadyExists(name: string)
    | DatasetNotFound(name: string)
    | FolderInaccessible(folder: string)
    | EmptyDataset                      // Loaders: no image found
    | DrawsExhausted                    // the random stream ran out while sampling
    | CsvFailure(error: Csv.CsvError)

  /** What stb made of one file: nothing (stbi_load returned null), a
      resized image, or a resized image followed by an exception from the
      label assignment (the pixels are already in the slot, the label is
      not, and the ring does not advance). */
  datatype Decoded =
    | LoadFailed
    | Resized(pixels: seq<byte>)
    | LabelThrew(pixels: seq<byte>)

  /** One image waiting in the ring: the dataset whose buffer holds it, its
      pixels, and its label (the name of the file's parent directory). */
  datatype Entry = Entry(dataset: string, pixels: seq<byte>, classLabel: string)

  /** Why one pass of the Loaders loop over a batch ended. */
  datatype Halt =
    | BatchDone          // every index of the batch was put
    | StopSeen           // stop_thread was set
    | ProducerWaits      // the ring is full: Put waits for the consumer

  /** One directory entry, kept when `keep` accepts it. */
  function Keep(p: string, keep: string -> bool): (r: seq<string>)
    ensures r == [] || r == [p]
    ensures r != [] <==> keep(p)
  {
    if keep(p) then [p] else []
  }

  /** The entries of a listing that `keep` accepts, in listing order. */
  function Filter(listing: seq<string>, keep: string -> bool): (r: seq<string>)
    ensures |r| <= |listing|
  {
    if listing == [] then []
    else Filter(listing[..|listing| - 1], keep) + Keep(listing[|listing| - 1], keep)
  }

  /** Filter keeps exactly the accepted entries of the listing. */
  lemma {:induction false} FilterMembers(listing: seq<string>, keep: string -> bool)
    ensures forall p :: p in Filter(listing, keep) <==> p in listing && keep(p)
  {
    if listing != [] {
      var init := listing[..|listing| - 1];
      var last := listing[|listing| - 1];
      assert listing == init + [last];
      FilterMembers(init, keep);
    }
  }

  /** Filtering a listing in two parts gives the same entries, in order. */
  lemma {:induction false} FilterAppend(a: seq<string>, b: seq<string>, keep: string -> bool)
    ensures Filter(a + b, keep) == Filter(a, keep) + Filter(b, keep)
    decreases |b|
  {
    if b == [] {
      assert a + b == a;
    } else {
      var b' := b[..|b| - 1];
      assert (a + b)[..|a + b| - 1] == a + b';
      assert (a + b)[|a + b| - 1] == b[|b| - 1];
      FilterAppend(a, b', keep);
    }
  }

  lemma FilterSnoc(listing: seq<string>, i: nat, keep: string -> bool)
    requires i < |listing|
    ensures Filter(listing[..i + 1], keep) == Filter(listing[..i], keep) + Keep(listing[i], keep)
  {
    assert listing[..i + 1][..i] == listing[..i];
  }

  /** The image files of a directory listing, in listing order. */
  function ImageFiles(listing: seq<string>): (r: seq<string>)
    ensures |r| <= |listing|
  {
    Filter(listing, Paths.IsImage)
  }

  /** ImageFiles keeps exactly the image files of the listing. */
  lemma ImageFilesMembers(listing: seq<string>)
    ensures forall p :: p in ImageFiles(listing) <==> p in listing && Paths.IsImage(p)
  {
    FilterMembers(listing, Paths.IsImage);
  }

  /** The directory loop of GetImagesDataFromFolder: push every entry the
      test accepts onto the dataset's paths and count them in a uint32_t. */
  method AppendImages(before: seq<string>, listing: seq<string>, keep: string -> bool)
    returns (paths: seq<string>, classSize: nat)
    ensures paths == before + Filter(listing, keep)
    ensures classSize == |Filter(listing, keep)| % U32
  {
    paths := before;
    classSize := 0;
    var i := 0;
    while i < |listing|
      invariant i <= |listing|
      invariant paths == before + Filter(listing[..i], keep)
      invariant classSize == |Filter(listing[..i], keep)| % U32
    {
      FilterSnoc(listing, i, keep);
      if keep(listing[i]) {
        paths := paths + [listing[i]];
        IncrementU32(classSize, |Filter(listing[..i], keep)|);
        classSize := (classSize + 1) % U32;
      }
      i := i + 1;
    }
    assert listing[..i] == listing;
  }

  /** The entry one put adds to the ring, if any. */
  function Added(dataset: string, path: string, d: Decoded): seq<Entry>
  {
    if d.Resized? then [Entry(dataset, d.pixels, Paths.ParentName(path))] else []
  }

  lemma AppendTwice(q0: seq<Entry>, q1: seq<Entry>, q2: seq<Entry>, s: seq<Entry>, a: seq<Entry>)
    requires q1 == q0 + s && q2 == q1 + a
    ensures q2 == q0 + (s + a)
  {
  }

  /** A put adds its entry exactly when the file was decoded and labelled. */
  lemma AddedCases(before: seq<Entry>, after: seq<Entry>, dataset: string, path: string, d: Decoded)
    requires d.Resized? ==> after == before + [Entry(dataset, d.pixels, Paths.ParentName(path))]
    requires !d.Resized? ==> after == before
    ensures after == before + Added(dataset, path, d)
    ensures |after| == |before| + |Added(dataset, path, d)|
  {
    if !d.Resized? {
      assert before + [] == before;
    }
  }

  /** The entries a run of puts adds to the ring: one per index whose file
      was decoded and labelled. */
  function Stored(dataset: string, paths: seq<string>, idx: seq<nat>, decode: string -> Decoded): (r: seq<Entry>)
    requires forall i :: 0 <= i < |idx| ==> idx[i] < |paths|
    ensures |r| <= |idx|
  {
    if idx == [] then []
    else
      var path := paths[idx[|idx| - 1]];
      Stored(dataset, paths, idx[..|idx| - 1], decode) + Added(dataset, path, decode(path))
  }

  lemma StoredSnoc(dataset: string, paths: seq<string>, idx: seq<nat>, i: nat, decode: string -> Decoded)
    requires i < |idx| && forall j :: 0 <= j < |idx| ==> idx[j] < |paths|
    ensures Stored(dataset, paths, idx[..i + 1], decode)
              == Stored(dataset, paths, idx[..i], decode) + Added(dataset, paths[idx[i]], decode(paths[idx[i]]))
  {
    assert idx[..i + 1][..i] == idx[..i];
  }

  /** Every entry a run of puts adds belongs to the dataset they went to. */
  lemma {:induction false} StoredDataset(dataset: string, paths: seq<string>, idx: seq<nat>, decode: string -> Decoded)
    requires forall i :: 0 <= i < |idx| ==> idx[i] < |paths|
    ensures forall e :: e in Stored(dataset, paths, idx, decode) ==> e.dataset == dataset
  {
    if idx != [] {
      StoredDataset(dataset, paths, idx[..|idx| - 1], decode);
    }
  }

  /** When every file decodes, every index adds its entry, labelled with the
      parent directory of the file it names. */
  lemma {:induction false} StoredAllDecoded(dataset: string, paths: seq<string>, idx: seq<nat>, decode: string -> Decoded)
    requires forall i :: 0 <= i < |idx| ==> idx[i] < |paths|
    requires forall i :: 0 <= i < |idx| ==> decode(paths[idx[i]]).Resized?
    ensures |Stored(dataset, paths, idx, decode)| == |idx|
    ensures forall i :: 0 <= i < |idx| ==>
              Stored(dataset, paths, idx, decode)[i]
                == Entry(dataset, decode(paths[idx[i]]).pixels, Paths.ParentName(paths[idx[i]]))
  {
    assert AllDecoded(paths, idx, decode);
    StoredLength(dataset, paths, idx, decode);
    forall i | 0 <= i < |idx|
      ensures Stored(dataset, paths, idx, decode)[i]
                == Entry(dataset, decode(paths[idx[i]]).pixels, Paths.ParentName(paths[idx[i]]))
    {
      StoredAt(dataset, paths, idx, decode, i);
    }
  }

  /** All decoded: the indices `idx` name files that all decode. */
  predicate AllDecoded(paths: seq<string>, idx: seq<nat>, decode: string -> Decoded)
  {
    forall i :: 0 <= i < |idx| ==> idx[i] < |paths| && decode(paths[idx[i]]).Resized?
  }

  lemma AllDecodedFront(paths: seq<string>, idx: seq<nat>, decode: string -> Decoded)
    requires AllDecoded(paths, idx, decode) && idx != []
    ensures AllDecoded(paths, idx[..|idx| - 1], decode)
    ensures decode(paths[idx[|idx| - 1]]).Resized?
  {
    var front := idx[..|idx| - 1];
    forall k | 0 <= k < |front| ensures front[k] < |paths| && decode(paths[front[k]]).Resized? {
      assert front[k] == idx[k];
    }
  }

  lemma StoredLast(dataset: string, paths: seq<string>, idx: seq<nat>, decode: string -> Decoded)
    requires AllDecoded(paths, idx, decode) && idx != []
    ensures Stored(dataset, paths, idx, decode)
              == Stored(dataset, paths, idx[..|idx| - 1], decode)
                 + [Entry(dataset, decode(paths[idx[|idx| - 1]]).pixels, Paths.ParentName(paths[idx[|idx| - 1]]))]
  {
    AllDecodedFront(paths, idx, decode);
  }

  lemma {:induction false} StoredLength(dataset: string, paths: seq<string>, idx: seq<nat>, decode: string -> Decoded)
    requires AllDecoded(paths, idx, decode)
    ensures |Stored(dataset, paths, idx, decode)| == |idx|
  {
    if idx != [] {
      AllDecodedFront(paths, idx, decode);
      StoredLast(dataset, paths, idx, decode);
      StoredLength(dataset, paths, idx[..|idx| - 1], decode);
    }
  }

  lemma {:induction false} StoredAt(dataset: string, paths: seq<string>, idx: seq<nat>, decode: string -> Decoded, i: nat)
    requires AllDecoded(paths, idx, decode) && i < |idx|
    ensures |Stored(dataset, paths, idx, decode)| == |idx|
    ensures Stored(dataset, paths, idx, decode)[i]
              == Entry(dataset, decode(paths[idx[i]]).pixels, Paths.ParentName(paths[idx[i]]))
  {
    var front := idx[..|idx| - 1];
    AllDecodedFront(paths, idx, decode);
    StoredLast(dataset, paths, idx, decode);
    StoredLength(dataset, paths, front, decode);
    if i < |front| {
      StoredAt(dataset, paths, front, decode, i);
      assert front[i] == idx[i];
    }
  }

  /** A label array as std::array<std::string, N> value-initialises it. */
  function BlankLabels(n: nat): (r: seq<string>)
    ensures |r| == n && forall i :: 0 <= i < n ==> r[i] == ""
  {
    seq(n, _ => "")
  }

  /** The slot GetAsAF reads the label from: the one Get just released. */
  function PrevSlot(head: nat, n: nat): (s: nat)
    requires head < n
    ensures s < n
  {
    if head > 0 then head - 1 else n - 1
  }

  /** uint32_t decrement, wrapping 0 to 2^32 - 1. */
  function DecrementU32(x: nat): (r: nat)
    requires x < U32
    ensures r < U32
    ensures (r + 1) % U32 == x
  {
    if x == 0 then U32 - 1 else x - 1
  }

  /** The loop of Loaders that adds the class sizes into a uint32_t. */
  method SumU32(sizes: seq<nat>) returns (total: nat)
    ensures total == Sampling.Sum(sizes) % U32
  {
    total := 0;
    var i := 0;
    while i < |sizes|
      invariant i <= |sizes|
      invariant total == Sampling.Sum(sizes[..i]) % U32
    {
      assert sizes[..i + 1][..i] == sizes[..i];
      ModAddSmall(Sampling.Sum(sizes[..i]), sizes[i]);
      total := (total + sizes[i]) % U32;
      i := i + 1;
    }
    assert sizes[..i] == sizes;
  }

  /** The class sizes after Loaders decrements the last one. */
  function Decremented(sizes: seq<nat>): (r: seq<nat>)
    requires |sizes| >= 1 && sizes[|sizes| - 1] < U32
    ensures |r| == |sizes| && r[..|r| - 1] == sizes[..|sizes| - 1]
  {
    sizes[..|sizes| - 1] + [DecrementU32(sizes[|sizes| - 1])]
  }

  /** Taking one from a nonzero last class takes one from the sum. */
  lemma SumDecremented(sizes: seq<nat>)
    requires |sizes| >= 1 && 1 <= sizes[|sizes| - 1] < U32
    ensures Sampling.Sum(Decremented(sizes)) + 1 == Sampling.Sum(sizes)
  {
    var d := Decremented(sizes);
    assert d[..|d| - 1] == sizes[..|sizes| - 1];
  }

  /** Every index the sampler hands Loaders names one of the first
      Sum(sizes) + 1 images: on the small path a permutation of 0..total-1,
      on the stratified path values bounded by the class ranges. */
  lemma SampledIndicesBounded(batchSize: nat, sizes: seq<nat>, batch: seq<nat>)
    requires |sizes| >= 1
    requires Sampling.Sum(sizes) <= Sampling.SmallPopulation ==>
               multiset(batch) == multiset(Sampling.Iota(Sampling.Sum(sizes)))
    requires Sampling.Sum(sizes) > Sampling.SmallPopulation ==> Sampling.StratifiedBatch(batchSize, sizes, batch)
    ensures forall j :: 0 <= j < |batch| ==> batch[j] <= Sampling.Sum(sizes)
  {
    var total := Sampling.Sum(sizes);
    if total <= Sampling.SmallPopulation {
      Sampling.PermutationBounds(batch, total);
    } else {
      var split := batchSize - batchSize % |sizes|;
      Sampling.ChunksBounded(batch[..split], sizes, Sampling.Quota(batchSize, |sizes|));
      forall j | 0 <= j < |batch| ensures batch[j] <= total {
        if j < split {
          assert batch[..split][j] == batch[j];
        }
      }
    }
  }

  /** The sampler as Loaders calls it, with the uint32_t total of the
      class sizes: every index it hands back is at most that total. */
  method SampleBatch(batchSize: nat, sizes: seq<nat>, total: nat, draws: seq<nat>)
    returns (r: Result<seq<nat>, Sampling.SampleError>)
    requires |sizes| >= 1 && total == Sampling.Sum(sizes) && total >= 1
    ensures r.Success? ==> forall j :: 0 <= j < |r.value| ==> r.value[j] <= total
    ensures total <= Sampling.SmallPopulation ==> r.Success?
  {
    var consumed;
    r, consumed := Sampling.GetRandomSampleClassIndex(batchSize, sizes, total, draws);
    if r.Success? {
      SampledIndicesBounded(batchSize, sizes, r.value);
    }
  }

  /* ------------------------------------------------------ arithmetic helpers */

  lemma ModAddSmall(a: nat, b: nat)
    ensures (a % U32 + b) % U32 == (a + b) % U32
  {
    var q := a / U32;
    assert a == q * U32 + a % U32;
  }

  /** A uint32_t counter that tracks n, incremented, tracks n + 1. */
  lemma IncrementU32(x: nat, n: nat)
    requires x == n % U32
    ensures (x + 1) % U32 == (n + 1) % U32
  {
    ModAddSmall(n, 1);
  }

  /** The slot k places after `start` in a ring of n slots, for k <= n:
      (start + k) mod n written without the modulus. */
  function Ahead(start: nat, k: nat, n: nat): (s: nat)
    requires start < n && k <= n
    ensures s < n
  {
    if start + k < n then start + k else start + k - n
  }

  lemma ModSmall(x: nat, n: nat)
    requires n > 0 && x < 2 * n
    ensures x % n == if x < n then x else x - n
  {
    if x >= n {
      assert x == 1 * n + (x - n);
    }
  }

  /** Ahead is the ring arithmetic of the source, `(start + k) % n`. */
  lemma AheadIsMod(start: nat, k: nat, n: nat)
    requires start < n && k <= n
    ensures Ahead(start, k, n) == (start + k) % n
  {
    ModSmall(start + k, n);
  }

  lemma PrevSlotAfter(h: nat, n: nat)
    requires h < n
    ensures PrevSlot(Ahead(h, 1, n), n) == h
  {
  }

  /** The first byte of slot `slot` when every slot is `size` bytes, written
      as repeated addition so that the ring's invariants stay linear;
      OffsetIsProduct says it is `slot * size`. */
  function Offset(slot: nat, size: nat): nat
  {
    if slot == 0 then 0 else Offset(slot - 1, size) + size
  }

  lemma {:induction false} OffsetIsProduct(slot: nat, size: nat)
    ensures Offset(slot, size) == slot * size
  {
    if slot > 0 {
      OffsetIsProduct(slot - 1, size);
    }
  }

  /** Slot `slot` of `n` slots ends inside the buffer. */
  lemma {:induction false} SlotFits(slot: nat, n: nat, size: nat)
    requires slot < n
    ensures Offset(slot, size) + size <= Offset(n, size)
  {
    if slot < n - 1 {
      SlotFits(slot, n - 1, size);
    }
  }

  /** Two different slots do not overlap. */
  lemma DisjointSlots(s: nat, t: nat, size: nat)
    requires s != t
    ensures Offset(s, size) + size <= Offset(t, size) || Offset(t, size) + size <= Offset(s, size)
  {
    if s < t { SlotFits(s, t, size); } else { SlotFits(t, s, size); }
  }

  /** `s` with `p` written over it from `off` on. */
  function Splice(s: seq<byte>, off: nat, p: seq<byte>): (r: seq<byte>)
    requires off + |p| <= |s|
    ensures |r| == |s|
  {
    s[..off] + p + s[off + |p|..]
  }

  /** Slot `slot` of a buffer cut into `size`-byte slots. */
  function Slot(s: seq<byte>, slot: nat, size: nat): seq<byte>
    requires Offset(slot, size) + size <= |s|
  {
    s[Offset(slot, size) .. Offset(slot, size) + size]
  }

  /** Writing a slot's worth of bytes at a slot puts them in that slot. */
  lemma SpliceSlot(s: seq<byte>, t: nat, size: nat, p: seq<byte>)
    requires Offset(t, size) + size <= |s| && |p| == size
    ensures Slot(Splice(s, Offset(t, size), p), t, size) == p
  {
    var o := Offset(t, size);
    assert Splice(s, o, p)[o..o + size] == p;
  }

  /** ... and leaves every other slot as it was. */
  lemma SpliceOtherSlot(s: seq<byte>, t: nat, u: nat, size: nat, p: seq<byte>)
    requires t != u && |p| == size
    requires Offset(t, size) + size <= |s| && Offset(u, size) + size <= |s|
    ensures Slot(Splice(s, Offset(t, size), p), u, size) == Slot(s, u, size)
  {
    DisjointSlots(t, u, size);
    SpliceOutside(s, Offset(t, size), p, Offset(u, size), Offset(u, size) + size);
  }

  /** A splice leaves every range it does not touch as it was. */
  lemma SpliceOutside(s: seq<byte>, off: nat, p: seq<byte>, lo: nat, hi: nat)
    requires off + |p| <= |s| && lo <= hi <= |s|
    requires hi <= off || off + |p| <= lo
    ensures Splice(s, off, p)[lo..hi] == s[lo..hi]
  {
    var r := Splice(s, off, p);
    assert forall i :: lo <= i < hi ==> r[i] == s[i];
  }

  /** Copy `pixels` into `buf` at `off`. */
  method CopyInto(buf: array<byte>, off: nat, pixels: seq<byte>)
    requires off + |pixels| <= buf.Length
    modifies buf
    ensures buf[..] == Splice(old(buf[..]), off, pixels)
  {
    forall i | 0 <= i < |pixels| {
      buf[off + i] := pixels[i];
    }
    assert buf[..] == Splice(old(buf[..]), off, pixels);
  }

  /* ------------------------------------------------------------------ class */

  class LanternImageLoader {
    const Capacity: nat       // TOTAL_IMAGES
    const Width: nat          // IMG_WIDTH
    const Height: nat         // IMG_HEIGHT
    const IsColor: bool
    const SlotSize: nat       // bytes per image
    const Allocation: nat     // bytes per dataset buffer

    var eachClassSizes: seq<nat>
    var imagePaths: map<string, seq<string>>
    var imageCache: map<string, array<byte>>
    var labelCache: map<string, array<string>>
    var labels: map<string, Csv.Table>
    var activeDataset: string
    var stopThread: bool
    var head: nat
    var tail: nat
    var count: nat

    /** The images in the ring, oldest first. */
    ghost var Queue: seq<Entry>

    /** The bytes of one slot of a dataset buffer. */
    ghost function SlotBytes(bytes: seq<byte>, slot: nat): seq<byte>
      requires slot < Capacity && |bytes| == Offset(Capacity, SlotSize)
    {
      SlotFits(slot, Capacity, SlotSize);
      Slot(bytes, slot, SlotSize)
    }

    /** A dataset buffer's contents with slot `slot` overwritten by `pixels`. */
    ghost function WithSlot(bytes: seq<byte>, slot: nat, pixels: seq<byte>): seq<byte>
      requires slot < Capacity && |bytes| == Offset(Capacity, SlotSize) && |pixels| == SlotSize
    {
      SlotFits(slot, Capacity, SlotSize);
      Splice(bytes, Offset(slot, SlotSize), pixels)
    }

    /** Slot `slot` of the entry's dataset holds the entry, given the two caches. */
    ghost predicate Holds(images: map<string, array<byte>>, names: map<string, array<string>>, e: Entry, slot: nat)
      reads images.Values, names.Values
    {
      && slot < Capacity
      && Allocation == Offset(Capacity, SlotSize)
      && e.dataset in images && images[e.dataset].Length == Allocation
      && e.dataset in names && names[e.dataset].Length == Capacity
      && SlotBytes(images[e.dataset][..], slot) == e.pixels
      && names[e.dataset][slot] == e.classLabel
    }

    /** Every dataset buffer holds TOTAL_IMAGES slots and every label array
        TOTAL_IMAGES labels, and no two datasets share either. */
    ghost predicate CachesShaped(images: map<string, array<byte>>, names: map<string, array<string>>)
    {
      && (forall d :: d in images ==> images[d].Length == Allocation)
      && (forall d :: d in names ==> names[d].Length == Capacity)
      && (forall d, d' :: d in images && d' in images && d != d' ==> images[d] != images[d'])
      && (forall d, d' :: d in names && d' in names && d != d' ==> names[d] != names[d'])
    }

    /** The k-th entry of the queue sits in slot (start + k) mod TOTAL_IMAGES. */
    ghost predicate QueueHeld(images: map<string, array<byte>>, names: map<string, array<string>>,
                              queue: seq<Entry>, start: nat)
      reads images.Values, names.Values
    {
      && Capacity > 0
      && start < Capacity
      && |queue| <= Capacity
      && forall k :: 0 <= k < |queue| ==> Holds(images, names, queue[k], Ahead(start, k, Capacity))
    }

    /** Registering a new buffer under a new name leaves the queue where it was. */
    lemma QueueHeldNewBuffer(images: map<string, array<byte>>, names: map<string, array<string>>,
                             queue: seq<Entry>, start: nat, name: string, buf: array<byte>)
      requires QueueHeld(images, names, queue, start) && name !in images
      ensures QueueHeld(images[name := buf], names, queue, start)
    {
      forall k | 0 <= k < |queue|
        ensures Holds(images[name := buf], names, queue[k], Ahead(start, k, Capacity))
      {
        assert Holds(images, names, queue[k], Ahead(start, k, Capacity));
      }
    }

    /** Registering a new label array under a name no queued entry uses
        leaves the queue where it was. */
    lemma QueueHeldNewNames(images: map<string, array<byte>>, names: map<string, array<string>>,
                            queue: seq<Entry>, start: nat, name: string, arr: array<string>)
      requires QueueHeld(images, names, queue, start) && name !in names
      ensures QueueHeld(images, names[name := arr], queue, start)
    {
      forall k | 0 <= k < |queue|
        ensures Holds(images, names[name := arr], queue[k], Ahead(start, k, Capacity))
      {
        assert Holds(images, names, queue[k], Ahead(start, k, Capacity));
      }
    }

    /** Taking the oldest entry off the queue: it is held at `start`, and
        the rest is held from the next slot on. */
    lemma QueueHeldShift(images: map<string, array<byte>>, names: map<string, array<string>>,
                         queue: seq<Entry>, start: nat)
      requires QueueHeld(images, names, queue, start) && |queue| > 0
      ensures Holds(images, names, queue[0], start)
      ensures QueueHeld(images, names, queue[1..], Ahead(start, 1, Capacity))
    {
      assert Holds(images, names, queue[0], Ahead(start, 0, Capacity));
      forall k | 0 <= k < |queue| - 1
        ensures Holds(images, names, queue[1..][k], Ahead(Ahead(start, 1, Capacity), k, Capacity))
      {
        assert queue[1..][k] == queue[k + 1];
        assert Ahead(Ahead(start, 1, Capacity), k, Capacity) == Ahead(start, k + 1, Capacity);
      }
    }

    /** Adding an entry held at the slot after the last one. */
    lemma QueueHeldAppend(images: map<string, array<byte>>, names: map<string, array<string>>,
                          queue: seq<Entry>, start: nat, e: Entry)
      requires QueueHeld(images, names, queue, start) && |queue| < Capacity
      requires Holds(images, names, e, Ahead(start, |queue|, Capacity))
      ensures QueueHeld(images, names, queue + [e], start)
    {
      forall k | 0 <= k < |queue| + 1
        ensures Holds(images, names, (queue + [e])[k], Ahead(start, k, Capacity))
      {
        if k < |queue| {
          assert (queue + [e])[k] == queue[k];
        }
      }
    }

    ghost predicate Valid()
      reads this, imageCache.Values, labelCache.Values
    {
      && Capacity > 0
      && Allocation == Offset(Capacity, SlotSize)
      && head < Capacity && tail < Capacity && count <= Capacity
      && tail == Ahead(head, count, Capacity)
      && (forall i :: 0 <= i < |eachClassSizes| ==> eachClassSizes[i] < U32)
      && "" !in imagePaths
      && CachesShaped(imageCache, labelCache)
      && (activeDataset in imageCache || (activeDataset == "" && count == 0))
      && |Queue| == count
      && QueueHeld(imageCache, labelCache, Queue, head)
    }

    /** A loader with no dataset and an empty ring. */
    constructor (totalImages: nat, width: nat, height: nat, isColor: bool)
      requires totalImages > 0
      ensures Valid()
      ensures Capacity == totalImages && Width == width && Height == height && IsColor == isColor
      ensures SlotSize == width * height * (if isColor then 3 else 1)
      ensures Allocation == totalImages * SlotSize
      ensures eachClassSizes == [] && imagePaths == map[] && imageCache == map[]
      ensures labelCache == map[] && labels == map[] && activeDataset == ""
      ensures !stopThread && head == 0 && tail == 0 && count == 0 && Queue == []
    {
      Capacity := totalImages;
      Width := width;
      Height := height;
      IsColor := isColor;
      var slotSize := width * height * (if isColor then 3 else 1);
      SlotSize := slotSize;
      Allocation := totalImages * slotSize;
      OffsetIsProduct(totalImages, slotSize);
      eachClassSizes := [];
      imagePaths := map[];
      imageCache := map[];
      labelCache := map[];
      labels := map[];
      activeDataset := "";
      stopThread := false;
      head := 0;
      tail := 0;
      count := 0;
      Queue := [];
    }

    /** CheckDatasetValid: a dataset must have been selected. */
    function CheckDatasetValid(): (r: Outcome<LoaderError>)
      reads this, imageCache.Values, labelCache.Values
      requires Valid()
      ensures r == Pass <==> activeDataset != ""
      ensures r == Pass ==> activeDataset in imageCache
      ensures r != Pass ==> r == Fail(NoActiveDataset)
    {
      if activeDataset == "" then Fail(NoActiveDataset) else Pass
    }

    /** CreateDatasetForFolder: a fresh buffer of Allocation bytes under a
        new name. Its contents are whatever Vector<uint8_t>(allocation)
        leaves there, so nothing is promised about them. */
    method CreateDatasetForFolder(name: string) returns (r: Outcome<LoaderError>)
      requires Valid()
      modifies this
      ensures Valid()
      ensures name in old(imageCache) ==> r == Fail(DatasetAlreadyExists(name)) && imageCache == old(imageCache)
      ensures name !in old(imageCache) ==>
                && r == Pass
                && imageCache.Keys == old(imageCache).Keys + {name}
                && fresh(imageCache[name])
                && imageCache[name].Length == Allocation
                && (forall d :: d in old(imageCache) ==> imageCache[d] == old(imageCache[d]))
      ensures eachClassSizes == old(eachClassSizes) && imagePaths == old(imagePaths)
      ensures labelCache == old(labelCache) && labels == old(labels) && activeDataset == old(activeDataset)
      ensures stopThread == old(stopThread) && head == old(head) && tail == old(tail) && count == old(count)
      ensures Queue == old(Queue)
    {
      if name in imageCache {
        return Fail(DatasetAlreadyExists(name));
      }
      var buffer := new byte[Allocation];
      QueueHeldNewBuffer(imageCache, labelCache, Queue, head, name, buffer);
      imageCache := imageCache[name := buffer];
      r := Pass;
    }

    /** SelectDatasetToModify: only a created dataset can become active. */
    method SelectDatasetToModify(name: string) returns (r: Outcome<LoaderError>)
      requires Valid()
      modifies this
      ensures Valid()
      ensures name !in imageCache ==> r == Fail(DatasetNotFound(name)) && activeDataset == old(activeDataset)
      ensures name in imageCache ==> r == Pass && activeDataset == name
      ensures eachClassSizes == old(eachClassSizes) && imagePaths == old(imagePaths) && imageCache == old(imageCache)
      ensures labelCache == old(labelCache) && labels == old(labels)
      ensures stopThread == old(stopThread) && head == old(head) && tail == old(tail) && count == old(count)
      ensures Queue == old(Queue)
    {
      if name !in imageCache {
        return Fail(DatasetNotFound(name));
      }
      activeDataset := name;
      r := Pass;
    }

    /** GetImagesDataFromFolder: append the folder's image files to the
        active dataset's paths and their number (as a uint32_t) to the
        class sizes. The listing stands for the directory iterator. */
    method GetImagesDataFromFolder(folder: string, pathExists: bool, isDirectory: bool, listing: seq<string>)
      returns (r: Outcome<LoaderError>)
      requires Valid()
      modifies this
      ensures Valid()
      ensures activeDataset == "" ==>
                r == Fail(NoActiveDataset) && imagePaths == old(imagePaths) && eachClassSizes == old(eachClassSizes)
      ensures activeDataset != "" && !(pathExists && isDirectory) ==>
                r == Fail(FolderInaccessible(folder)) && imagePaths == old(imagePaths) && eachClassSizes == old(eachClassSizes)
      ensures activeDataset != "" && pathExists && isDirectory ==>
                && r == Pass
                && imagePaths == old(imagePaths)[activeDataset :=
                     (if activeDataset in old(imagePaths) then old(imagePaths)[activeDataset] else []) + ImageFiles(listing)]
                && eachClassSizes == old(eachClassSizes) + [|ImageFiles(listing)| % U32]
      ensures imageCache == old(imageCache) && labelCache == old(labelCache) && labels == old(labels)
      ensures activeDataset == old(activeDataset) && stopThread == old(stopThread)
      ensures head == old(head) && tail == old(tail) && count == old(count) && Queue == old(Queue)
    {
      if activeDataset == "" {
        return Fail(NoActiveDataset);
      }
      if !(pathExists && isDirectory) {
        return Fail(FolderInaccessible(folder));
      }
      var before := if activeDataset in imagePaths then imagePaths[activeDataset] else [];
      var paths, classSize := AppendImages(before, listing, Paths.IsImage);
      AddClass(paths, classSize);
      r := Pass;
    }

    /** The two writes that end GetImagesDataFromFolder: the active
        dataset's new path list and the new class size. */
    method AddClass(paths: seq<string>, classSize: nat)
      requires Valid() && activeDataset != "" && classSize < U32
      modifies this
      ensures Valid()
      ensures imagePaths == old(imagePaths)[activeDataset := paths]
      ensures eachClassSizes == old(eachClassSizes) + [classSize]
      ensures imageCache == old(imageCache) && labelCache == old(labelCache) && labels == old(labels)
      ensures activeDataset == old(activeDataset) && stopThread == old(stopThread)
      ensures head == old(head) && tail == old(tail) && count == old(count) && Queue == old(Queue)
    {
      imagePaths := imagePaths[activeDataset := paths];
      eachClassSizes := eachClassSizes + [classSize];
    }

    /** ReadCSVLabelDataFromFolder: the parsed file replaces the active
        dataset's label table; a failed read leaves the tables alone. */
    method ReadCSVLabelDataFromFolder(path: string, pathExists: bool, isRegularFile: bool, isOpen: bool, lines: seq<string>)
      returns (r: Outcome<LoaderError>)
      requires Valid()
      modifies this
      ensures Valid()
      ensures activeDataset == "" ==> r == Fail(NoActiveDataset) && labels == old(labels)
      ensures activeDataset != "" ==>
                (r == Pass <==> pathExists && isRegularFile && Csv.IsCsvPath(path) && isOpen && Csv.SameWidth(lines))
      ensures activeDataset != "" && !pathExists ==> r == Fail(CsvFailure(Csv.PathNotFound))
      ensures r == Pass ==>
                && activeDataset in labels
                && labels == old(labels)[activeDataset := labels[activeDataset]]
                && |labels[activeDataset].rows| == |lines|
                && forall i :: 0 <= i < |lines| ==> labels[activeDataset].rows[i] == Csv.Fields(lines[i])
      ensures r != Pass ==> labels == old(labels) && (r == Fail(NoActiveDataset) || r.error.CsvFailure?)
      ensures eachClassSizes == old(eachClassSizes) && imagePaths == old(imagePaths) && imageCache == old(imageCache)
      ensures labelCache == old(labelCache) && activeDataset == old(activeDataset) && stopThread == old(stopThread)
      ensures head == old(head) && tail == old(tail) && count == old(count) && Queue == old(Queue)
    {
      if activeDataset == "" {
        return Fail(NoActiveDataset);
      }
      var t := Csv.ReadCsvFile(path, pathExists, isRegularFile, isOpen, lines);
      match t
      case Success(table) =>
        SetLabels(table);
        r := Pass;
      case Failure(e) =>
        r := Fail(CsvFailure(e));
    }

    /** `labels[active_dataset] = ...`: the one write of ReadCSVLabelDataFromFolder. */
    method SetLabels(table: Csv.Table)
      requires Valid()
      modifies this
      ensures Valid()
      ensures labels == old(labels)[activeDataset := table]
      ensures eachClassSizes == old(eachClassSizes) && imagePaths == old(imagePaths) && imageCache == old(imageCache)
      ensures labelCache == old(labelCache) && activeDataset == old(activeDataset) && stopThread == old(stopThread)
      ensures head == old(head) && tail == old(tail) && count == old(count) && Queue == old(Queue)
    {
      labels := labels[activeDataset := table];
    }

    /** GetCSVLabelAtRow: row `row` of the active dataset's table, converted;
        a dataset without a table gets an empty one (operator[]). */
    method GetCSVLabelAtRow(row: nat, ty: Csv.CellType) returns (r: Result<seq<Csv.Value>, LoaderError>)
      requires Valid()
      modifies this
      ensures Valid()
      ensures activeDataset == "" ==> r == Failure(NoActiveDataset) && labels == old(labels)
      ensures activeDataset != "" ==>
                && labels == (if activeDataset in old(labels) then old(labels)
                              else old(labels)[activeDataset := Csv.CsvFile([])])
                && (activeDataset !in old(labels) ==> r == Failure(CsvFailure(Csv.RowOutOfBounds)))
                && (r.Success? ==> row < |labels[activeDataset].rows|
                                   && |r.value| == |labels[activeDataset].rows[row]|
                                   && forall k :: 0 <= k < |r.value| ==>
                                        Csv.ConvertFromString(labels[activeDataset].rows[row][k], ty) == Success(r.value[k]))
                && (r.Failure? ==> r.error.CsvFailure?)
                && (row >= |labels[activeDataset].rows| ==> r == Failure(CsvFailure(Csv.RowOutOfBounds)))
                && (r.Success? <==>
                      && row < |labels[activeDataset].rows|
                      && forall k :: 0 <= k < |labels[activeDataset].rows[row]| ==>
                           Csv.ConvertFromString(labels[activeDataset].rows[row][k], ty).Success?)
                && (row < |labels[activeDataset].rows| && r.Failure? ==> r == Failure(CsvFailure(Csv.InvalidConversion)))
      ensures eachClassSizes == old(eachClassSizes) && imagePaths == old(imagePaths) && imageCache == old(imageCache)
      ensures labelCache == old(labelCache) && activeDataset == old(activeDataset) && stopThread == old(stopThread)
      ensures head == old(head) && tail == old(tail) && count == old(count) && Queue == old(Queue)
    {
      if activeDataset == "" {
        return Failure(NoActiveDataset);
      }
      if activeDataset !in labels {
        labels := labels[activeDataset := Csv.CsvFile([])];
      }
      var t := labels[activeDataset];
      match Csv.Row(t, row, ty)
      case Success(v) =>
        r := Success(v);
      case Failure(e) =>
        r := Failure(CsvFailure(e));
    }


    /* ------------------------------------------------------------ the ring */

    /** `label_cache[active_dataset]` (operator[]): the active dataset's label
        array, created empty on first use. */
    method EnsureLabelArray()
      requires Valid() && activeDataset != ""
      modifies this
      ensures Valid()
      ensures activeDataset in labelCache
      ensures activeDataset in old(labelCache) ==> labelCache == old(labelCache)
      ensures activeDataset !in old(labelCache) ==>
                && labelCache == old(labelCache)[activeDataset := labelCache[activeDataset]]
                && fresh(labelCache[activeDataset])
                && labelCache[activeDataset][..] == BlankLabels(Capacity)
      ensures eachClassSizes == old(eachClassSizes) && imagePaths == old(imagePaths) && imageCache == old(imageCache)
      ensures labels == old(labels) && activeDataset == old(activeDataset) && stopThread == old(stopThread)
      ensures head == old(head) && tail == old(tail) && count == old(count) && Queue == old(Queue)
    {
      if activeDataset !in labelCache {
        var arr := new string[Capacity](_ => "");
        QueueHeldNewNames(imageCache, labelCache, Queue, head, activeDataset, arr);
        labelCache := labelCache[activeDataset := arr];
      }
    }

    /** The resize into `image_data + tail * slot size`: the slot at tail now
        holds the image and every other byte is as it was. The slot is free,
        so the queue is untouched. */
    method WritePixels(pixels: seq<byte>)
      requires Valid() && activeDataset != "" && count < Capacity && |pixels| == SlotSize
      modifies imageCache[activeDataset]
      ensures Valid()
      ensures imageCache[activeDataset][..] == WithSlot(old(imageCache[activeDataset][..]), tail, pixels)
      ensures SlotBytes(imageCache[activeDataset][..], tail) == pixels
    {
      var buf := imageCache[activeDataset];
      ghost var before := buf[..];
      SlotFits(tail, Capacity, SlotSize);
      var offset := tail * SlotSize;
      OffsetIsProduct(tail, SlotSize);
      CopyInto(buf, offset, pixels);
      SpliceSlot(before, tail, SlotSize, pixels);
      forall k | 0 <= k < count
        ensures Holds(imageCache, labelCache, Queue[k], Ahead(head, k, Capacity))
      {
        var slot := Ahead(head, k, Capacity);
        var e := Queue[k];
        assert old(Holds(imageCache, labelCache, e, slot));
        if imageCache[e.dataset] == buf {
          SlotFits(slot, Capacity, SlotSize);
          SpliceOtherSlot(before, tail, slot, SlotSize, pixels);
        }
      }
    }

    /** `label_data[tail] = ...`: the label of the free slot at tail. */
    method WriteLabel(name: string)
      requires Valid() && activeDataset in labelCache && count < Capacity
      modifies labelCache[activeDataset]
      ensures Valid()
      ensures labelCache[activeDataset][..] == old(labelCache[activeDataset][..])[tail := name]
    {
      var names := labelCache[activeDataset];
      names[tail] := name;
      forall k | 0 <= k < count
        ensures Holds(imageCache, labelCache, Queue[k], Ahead(head, k, Capacity))
      {
        assert old(Holds(imageCache, labelCache, Queue[k], Ahead(head, k, Capacity)));
      }
    }

    /** The advance of tail and count: the image at tail joins the queue. */
    method Advance(ghost pixels: seq<byte>, ghost name: string)
      requires Valid() && activeDataset != "" && activeDataset in labelCache && count < Capacity
      requires SlotBytes(imageCache[activeDataset][..], tail) == pixels
      requires labelCache[activeDataset][tail] == name
      modifies this
      ensures Valid()
      ensures tail == Ahead(old(tail), 1, Capacity) && count == old(count) + 1
      ensures Queue == old(Queue) + [Entry(activeDataset, pixels, name)]
      ensures eachClassSizes == old(eachClassSizes) && imagePaths == old(imagePaths) && imageCache == old(imageCache)
      ensures labelCache == old(labelCache) && labels == old(labels) && activeDataset == old(activeDataset)
      ensures stopThread == old(stopThread) && head == old(head)
    {
      ghost var e := Entry(activeDataset, pixels, name);
      QueueHeldAppend(imageCache, labelCache, Queue, head, e);
      Queue := Queue + [e];
      tail := Ahead(tail, 1, Capacity);  // (tail + 1) % TOTAL_IMAGES, by AheadIsMod
      count := count + 1;
    }

    /** The labels the active dataset's array holds before a put: its
        contents, or the blank array operator[] is about to create. */
    ghost function LabelsBefore(): (r: seq<string>)
      reads this, labelCache.Values
      requires activeDataset in labelCache ==> labelCache[activeDataset].Length == Capacity
      ensures |r| == Capacity
    {
      if activeDataset in labelCache then labelCache[activeDataset][..] else BlankLabels(Capacity)
    }

    /** Put: store one decoded image at tail. A stopped loader does nothing;
        without an active dataset it fails; a file stb cannot load leaves
        everything but the label array's creation alone; otherwise the
        pixels go to the slot at tail and, unless the label assignment
        throws, the label follows and the image joins the queue. */
    method Put(path: string, decoded: Decoded) returns (r: Outcome<LoaderError>)
      requires Valid()
      requires count < Capacity || stopThread
      requires !decoded.LoadFailed? ==> |decoded.pixels| == SlotSize
      modifies this, imageCache.Values, labelCache.Values
      ensures Valid()
      ensures eachClassSizes == old(eachClassSizes) && imagePaths == old(imagePaths) && imageCache == old(imageCache)
      ensures labels == old(labels) && activeDataset == old(activeDataset) && stopThread == old(stopThread)
      ensures head == old(head)
      ensures forall d :: d in old(labelCache) ==> d in labelCache && labelCache[d] == old(labelCache[d])
      ensures forall d :: d in labelCache && d !in old(labelCache) ==> d == activeDataset && fresh(labelCache[d])
      ensures forall d :: d in imageCache && d != activeDataset ==> imageCache[d][..] == old(imageCache[d][..])
      ensures forall d :: d in old(labelCache) && d != activeDataset ==> labelCache[d][..] == old(labelCache[d][..])
      ensures old(stopThread) || activeDataset == "" ==>
                && r == (if old(stopThread) then Pass else Fail(NoActiveDataset))
                && labelCache == old(labelCache)
                && (forall d :: d in imageCache ==> imageCache[d][..] == old(imageCache[d][..]))
                && (forall d :: d in labelCache ==> labelCache[d][..] == old(labelCache[d][..]))
                && tail == old(tail) && count == old(count) && Queue == old(Queue)
      ensures !old(stopThread) && activeDataset != "" ==>
                && r == Pass
                && activeDataset in labelCache
                && (decoded.LoadFailed? ==> imageCache[activeDataset][..] == old(imageCache[activeDataset][..]))
                && (!decoded.LoadFailed? ==>
                      && imageCache[activeDataset][..]
                           == WithSlot(old(imageCache[activeDataset][..]), old(tail), decoded.pixels)
                      && SlotBytes(imageCache[activeDataset][..], old(tail)) == decoded.pixels)
                && labelCache[activeDataset][..]
                     == (if decoded.Resized? then old(LabelsBefore())[old(tail) := Paths.ParentName(path)] else old(LabelsBefore()))
                && (decoded.Resized? ==>
                      && tail == Ahead(old(tail), 1, Capacity) && count == old(count) + 1
                      && Queue == old(Queue) + [Entry(activeDataset, decoded.pixels, Paths.ParentName(path))])
                && (!decoded.Resized? ==> tail == old(tail) && count == old(count) && Queue == old(Queue))
    {
      if stopThread {
        return Pass;
      }
      if activeDataset == "" {
        return Fail(NoActiveDataset);
      }
      EnsureLabelArray();
      Store(path, decoded);
      r := Pass;
    }

    /** The body of Put once the label array exists: a file stb cannot load
        changes nothing; otherwise the pixels go to the slot at tail and,
        unless the label assignment throws, the label follows and the image
        joins the queue. */
    method Store(path: string, decoded: Decoded)
      requires Valid() && activeDataset != "" && activeDataset in labelCache && count < Capacity
      requires !decoded.LoadFailed? ==> |decoded.pixels| == SlotSize
      modifies this, imageCache[activeDataset], labelCache[activeDataset]
      ensures Valid()
      ensures eachClassSizes == old(eachClassSizes) && imagePaths == old(imagePaths) && imageCache == old(imageCache)
      ensures labelCache == old(labelCache) && labels == old(labels) && activeDataset == old(activeDataset)
      ensures stopThread == old(stopThread) && head == old(head)
      ensures decoded.LoadFailed? ==> imageCache[activeDataset][..] == old(imageCache[activeDataset][..])
      ensures !decoded.LoadFailed? ==>
                && imageCache[activeDataset][..]
                     == WithSlot(old(imageCache[activeDataset][..]), old(tail), decoded.pixels)
                && SlotBytes(imageCache[activeDataset][..], old(tail)) == decoded.pixels
      ensures labelCache[activeDataset][..]
                == if decoded.Resized? then old(labelCache[activeDataset][..])[old(tail) := Paths.ParentName(path)]
                   else old(labelCache[activeDataset][..])
      ensures decoded.Resized? ==>
                && tail == Ahead(old(tail), 1, Capacity) && count == old(count) + 1
                && Queue == old(Queue) + [Entry(activeDataset, decoded.pixels, Paths.ParentName(path))]
      ensures !decoded.Resized? ==> tail == old(tail) && count == old(count) && Queue == old(Queue)
    {
      match decoded
      case LoadFailed =>
      case Resized(pixels) =>
        WritePixels(pixels);
        var name := Paths.ParentName(path);
        WriteLabel(name);
        Advance(pixels, name);
      case LabelThrew(pixels) =>
        WritePixels(pixels);
    }

    /** Get: the consumer's step. A stopped loader hands out nothing;
        otherwise the offset of the slot at head in the active dataset's
        buffer, and head moves on. The released slot keeps its image and
        label until a later Put reuses it. */
    method Get() returns (r: Option<nat>)
      requires Valid()
      requires count > 0 || stopThread
      modifies this
      ensures Valid()
      ensures eachClassSizes == old(eachClassSizes) && imagePaths == old(imagePaths) && imageCache == old(imageCache)
      ensures labelCache == old(labelCache) && labels == old(labels) && activeDataset == old(activeDataset)
      ensures stopThread == old(stopThread) && tail == old(tail)
      ensures old(stopThread) ==> r == None && head == old(head) && count == old(count) && Queue == old(Queue)
      ensures !old(stopThread) ==>
                && r == Some(old(head) * SlotSize)
                && head == Ahead(old(head), 1, Capacity) && count == old(count) - 1
                && Queue == old(Queue)[1..]
                && Holds(imageCache, labelCache, old(Queue)[0], old(head))
                && (old(Queue)[0].dataset == activeDataset ==>
                      SlotBytes(imageCache[activeDataset][..], old(head)) == old(Queue)[0].pixels)
                && (old(count) == Capacity ==> tail == old(head))
    {
      if stopThread || count == 0 {
        return None;
      }
      var offset := head * SlotSize;
      Release();
      r := Some(offset);
    }

    /** The consumer's bookkeeping: head moves on and the oldest image
        leaves the queue, its slot still holding it. */
    method Release()
      requires Valid() && count > 0
      modifies this
      ensures Valid()
      ensures head == Ahead(old(head), 1, Capacity) && count == old(count) - 1 && Queue == old(Queue)[1..]
      ensures Holds(imageCache, labelCache, old(Queue)[0], old(head))
      ensures eachClassSizes == old(eachClassSizes) && imagePaths == old(imagePaths) && imageCache == old(imageCache)
      ensures labelCache == old(labelCache) && labels == old(labels) && activeDataset == old(activeDataset)
      ensures stopThread == old(stopThread) && tail == old(tail)
    {
      QueueHeldShift(imageCache, labelCache, Queue, head);
      head := Ahead(head, 1, Capacity);  // (head + 1) % TOTAL_IMAGES, by AheadIsMod
      count := count - 1;
      Queue := Queue[1..];
    }

    /** GetAsAF(img): Get behind CheckDatasetValid. The conversion of the
        handed-out bytes to an ArrayFire array is not modelled. */
    method GetAsAF() returns (r: Result<Option<nat>, LoaderError>)
      requires Valid()
      requires activeDataset != "" ==> count > 0 || stopThread
      modifies this
      ensures Valid()
      ensures eachClassSizes == old(eachClassSizes) && imagePaths == old(imagePaths) && imageCache == old(imageCache)
      ensures labelCache == old(labelCache) && labels == old(labels) && activeDataset == old(activeDataset)
      ensures stopThread == old(stopThread) && tail == old(tail)
      ensures activeDataset == "" || old(stopThread) ==>
                && r == (if activeDataset == "" then Failure(NoActiveDataset) else Success(None))
                && head == old(head) && count == old(count) && Queue == old(Queue)
      ensures activeDataset != "" && !old(stopThread) ==>
                && r == Success(Some(old(head) * SlotSize))
                && Queue == old(Queue)[1..]
                && (old(Queue)[0].dataset == activeDataset ==>
                      SlotBytes(imageCache[activeDataset][..], old(head)) == old(Queue)[0].pixels)
    {
      if activeDataset == "" {
        return Failure(NoActiveDataset);
      }
      var image := Get();
      r := Success(image);
    }

    /** GetAsAF(img, label): Get, then the label of the slot Get released
        (head - 1, wrapping to TOTAL_IMAGES - 1), read from the active
        dataset's label array, which operator[] creates when missing. */
    method GetAsAFLabeled() returns (r: Result<(Option<nat>, string), LoaderError>)
      requires Valid()
      requires activeDataset != "" ==> count > 0 || stopThread
      modifies this
      ensures Valid()
      ensures eachClassSizes == old(eachClassSizes) && imagePaths == old(imagePaths) && imageCache == old(imageCache)
      ensures labels == old(labels) && activeDataset == old(activeDataset)
      ensures stopThread == old(stopThread) && tail == old(tail)
      ensures activeDataset == "" ==>
                r == Failure(NoActiveDataset) && labelCache == old(labelCache)
                && head == old(head) && count == old(count) && Queue == old(Queue)
      ensures activeDataset != "" ==>
                && r.Success?
                && activeDataset in labelCache
                && r.value.1 == labelCache[activeDataset][PrevSlot(head, Capacity)]
      ensures activeDataset != "" && activeDataset in old(labelCache) ==> labelCache == old(labelCache)
      ensures activeDataset != "" && activeDataset !in old(labelCache) ==>
                && labelCache == old(labelCache)[activeDataset := labelCache[activeDataset]]
                && fresh(labelCache[activeDataset])
                && labelCache[activeDataset][..] == BlankLabels(Capacity)
      ensures activeDataset != "" && old(stopThread) ==>
                && r.Success? && r.value.0 == None
                && head == old(head) && count == old(count) && Queue == old(Queue)
      ensures activeDataset != "" && !old(stopThread) ==>
                && r.Success?
                && r.value.0 == Some(old(head) * SlotSize)
                && head == Ahead(old(head), 1, Capacity) && count == old(count) - 1
                && Queue == old(Queue)[1..]
                && (old(Queue)[0].dataset == activeDataset ==>
                      && r.value.1 == old(Queue)[0].classLabel
                      && SlotBytes(imageCache[activeDataset][..], old(head)) == old(Queue)[0].pixels)
    {
      if activeDataset == "" {
        return Failure(NoActiveDataset);
      }
      ghost var h := head;
      ghost var stopped := stopThread;
      var image := Get();
      if !stopped {
        PrevSlotAfter(h, Capacity);
      }
      EnsureLabelArray();
      var names := labelCache[activeDataset];
      var className := names[PrevSlot(head, Capacity)];
      r := Success((image, className));
    }

    /** The prologue of Loaders: `each_class_sizes.back() -= 1` in uint32_t,
        then the uint32_t total, which must not be zero. */
    method LoadersPrologue() returns (r: Result<nat, LoaderError>)
      requires Valid() && |eachClassSizes| >= 1
      modifies this
      ensures Valid()
      ensures eachClassSizes == Decremented(old(eachClassSizes))
      ensures Sampling.Sum(eachClassSizes) % U32 == 0 ==> r == Failure(EmptyDataset)
      ensures Sampling.Sum(eachClassSizes) % U32 != 0 ==> r == Success(Sampling.Sum(eachClassSizes) % U32)
      ensures imagePaths == old(imagePaths) && imageCache == old(imageCache)
      ensures labelCache == old(labelCache) && labels == old(labels) && activeDataset == old(activeDataset)
      ensures stopThread == old(stopThread) && head == old(head) && tail == old(tail) && count == old(count)
      ensures Queue == old(Queue)
    {
      var last := |eachClassSizes| - 1;
      eachClassSizes := eachClassSizes[last := DecrementU32(eachClassSizes[last])];
      assert eachClassSizes == Decremented(old(eachClassSizes));
      var total := SumU32(eachClassSizes);
      if total == 0 {
        return Failure(EmptyDataset);
      }
      r := Success(total);
    }

    /** The active dataset's image paths (none before the first folder). */
    function ActivePaths(): seq<string>
      reads this
    {
      if activeDataset in imagePaths then imagePaths[activeDataset] else []
    }

    /** One Put of the producer, seen from the batch loop: the ring gains the
        entry Added describes, and nothing the loop relies on changes. */
    method Feed(path: string, decoded: Decoded)
      requires Valid() && !stopThread && count < Capacity
      requires !decoded.LoadFailed? ==> |decoded.pixels| == SlotSize
      modifies this, imageCache.Values, labelCache.Values
      ensures Valid()
      ensures eachClassSizes == old(eachClassSizes) && imagePaths == old(imagePaths) && imageCache == old(imageCache)
      ensures labels == old(labels) && activeDataset == old(activeDataset) && stopThread == old(stopThread)
      ensures head == old(head)
      ensures forall d :: d in old(labelCache) ==> d in labelCache && labelCache[d] == old(labelCache[d])
      ensures forall d :: d in labelCache && d !in old(labelCache) ==> d == activeDataset && fresh(labelCache[d])
      ensures forall d :: d in imageCache && d != activeDataset ==> imageCache[d][..] == old(imageCache[d][..])
      ensures forall d :: d in old(labelCache) && d != activeDataset ==> labelCache[d][..] == old(labelCache[d][..])
      ensures activeDataset != "" ==> Queue == old(Queue) + Added(activeDataset, path, decoded)
      ensures activeDataset == "" ==> Queue == old(Queue)
      ensures |Queue| == count
    {
      ghost var q := Queue;
      var r := Put(path, decoded);
      if activeDataset != "" {
        AddedCases(q, Queue, activeDataset, path, decoded);
      }
    }

    /** Feed for the image of `batch[i]`, with the queue grown by what the
        first i + 1 indices store. */
    method FeedIndex(paths: seq<string>, batch: seq<nat>, i: nat, decode: string -> Decoded, ghost start: seq<Entry>)
      requires Valid() && !stopThread && count < Capacity && activeDataset != ""
      requires i < |batch| && forall j :: 0 <= j < |batch| ==> batch[j] < |paths|
      requires forall p :: !decode(p).LoadFailed? ==> |decode(p).pixels| == SlotSize
      requires Queue == start + Stored(activeDataset, paths, batch[..i], decode)
      modifies this, imageCache.Values, labelCache.Values
      ensures Valid()
      ensures eachClassSizes == old(eachClassSizes) && imagePaths == old(imagePaths) && imageCache == old(imageCache)
      ensures labels == old(labels) && activeDataset == old(activeDataset) && stopThread == old(stopThread)
      ensures head == old(head)
      ensures forall d :: d in old(labelCache) ==> d in labelCache && labelCache[d] == old(labelCache[d])
      ensures forall d :: d in labelCache && d !in old(labelCache) ==> d == activeDataset && fresh(labelCache[d])
      ensures forall d :: d in imageCache && d != activeDataset ==> imageCache[d][..] == old(imageCache[d][..])
      ensures forall d :: d in old(labelCache) && d != activeDataset ==> labelCache[d][..] == old(labelCache[d][..])
      ensures Queue == start + Stored(activeDataset, paths, batch[..i + 1], decode)
    {
      var path := paths[batch[i]];
      ghost var q := Queue;
      Feed(path, decode(path));
      StoredSnoc(activeDataset, paths, batch, i, decode);
      AppendTwice(start, q, Queue, Stored(activeDataset, paths, batch[..i], decode), Added(activeDataset, path, decode(path)));
    }

    /** The inner loop of Loaders: put the image of every index of the
        batch, in order, until the batch is done, stop_thread is seen, or
        the ring is full and Put would wait for the consumer. */
    method LoadBatch(batch: seq<nat>, decode: string -> Decoded) returns (done: nat, halt: Halt)
      requires Valid()
      requires forall i :: 0 <= i < |batch| ==> batch[i] < |ActivePaths()|
      requires forall p :: !decode(p).LoadFailed? ==> |decode(p).pixels| == SlotSize
      modifies this, imageCache.Values, labelCache.Values
      ensures Valid()
      ensures eachClassSizes == old(eachClassSizes) && imagePaths == old(imagePaths) && imageCache == old(imageCache)
      ensures activeDataset == old(activeDataset) && stopThread == old(stopThread)
      ensures labels == old(labels) && head == old(head)
      ensures forall d :: d in old(labelCache) ==> d in labelCache && labelCache[d] == old(labelCache[d])
      ensures forall d :: d in labelCache && d !in old(labelCache) ==> d == activeDataset && fresh(labelCache[d])
      ensures forall d :: d in imageCache && d != activeDataset ==> imageCache[d][..] == old(imageCache[d][..])
      ensures forall d :: d in old(labelCache) && d != activeDataset ==> labelCache[d][..] == old(labelCache[d][..])
      ensures done <= |batch|
      ensures Queue == old(Queue) + Stored(activeDataset, old(ActivePaths()), batch[..done], decode)
      ensures count == old(count) + |Stored(activeDataset, old(ActivePaths()), batch[..done], decode)|
      ensures halt == BatchDone ==> done == |batch|
      ensures halt == StopSeen <==> stopThread && |batch| > 0
      ensures halt == StopSeen ==> done == 0
      ensures halt == ProducerWaits ==> done < |batch| && count == Capacity
    {
      var paths := ActivePaths();
      done := 0;
      while done < |batch|
        invariant done <= |batch|
        invariant Valid()
        invariant eachClassSizes == old(eachClassSizes) && imagePaths == old(imagePaths) && imageCache == old(imageCache)
        invariant activeDataset == old(activeDataset) && stopThread == old(stopThread)
        invariant labels == old(labels) && head == old(head)
        invariant forall d :: d in old(labelCache) ==> d in labelCache && labelCache[d] == old(labelCache[d])
        invariant forall d :: d in labelCache && d !in old(labelCache) ==> d == activeDataset && fresh(labelCache[d])
        invariant forall d :: d in imageCache && d != activeDataset ==> imageCache[d][..] == old(imageCache[d][..])
        invariant forall d :: d in old(labelCache) && d != activeDataset ==> labelCache[d][..] == old(labelCache[d][..])
        invariant Queue == old(Queue) + Stored(activeDataset, paths, batch[..done], decode)
        invariant done > 0 ==> !stopThread
      {
        if stopThread {
          return done, StopSeen;
        }
        if count == Capacity {
          return done, ProducerWaits;
        }
        assert batch[done] < |paths|;
        assert activeDataset in imagePaths;
        FeedIndex(paths, batch, done, decode, old(Queue));
        done := done + 1;
      }
      halt := BatchDone;
    }

    /** One round of Loaders: the prologue, then, unless stop_thread is
        already set, one batch from the sampler (fed by `draws`) put image
        by image. The class sizes must describe the active dataset's paths
        (at most that many images, the last class nonempty, the sum a
        uint32_t), as the source's indexing assumes. Every index then names
        one of the active dataset's files. */
    method Loaders(draws: seq<nat>, decode: string -> Decoded)
      returns (r: Result<Halt, LoaderError>, batch: seq<nat>, done: nat)
      requires Valid()
      requires |eachClassSizes| >= 1 && eachClassSizes[|eachClassSizes| - 1] >= 1
      requires Sampling.Sum(eachClassSizes) < U32 && Sampling.Sum(eachClassSizes) <= |ActivePaths()|
      requires forall p :: !decode(p).LoadFailed? ==> |decode(p).pixels| == SlotSize
      modifies this, imageCache.Values, labelCache.Values
      ensures Valid()
      ensures eachClassSizes == Decremented(old(eachClassSizes))
      ensures imagePaths == old(imagePaths) && activeDataset == old(activeDataset) && stopThread == old(stopThread)
      ensures imageCache == old(imageCache) && labels == old(labels) && head == old(head)
      ensures forall d :: d in old(labelCache) ==> d in labelCache && labelCache[d] == old(labelCache[d])
      ensures forall d :: d in labelCache && d !in old(labelCache) ==> d == activeDataset && fresh(labelCache[d])
      ensures forall d :: d in imageCache && d != activeDataset ==> imageCache[d][..] == old(imageCache[d][..])
      ensures forall d :: d in old(labelCache) && d != activeDataset ==> labelCache[d][..] == old(labelCache[d][..])
      ensures Sampling.Sum(eachClassSizes) == 0 ==> r == Failure(EmptyDataset) && Queue == old(Queue)
      ensures Sampling.Sum(eachClassSizes) != 0 && old(stopThread) ==> r == Success(StopSeen) && Queue == old(Queue)
      ensures r == Failure(DrawsExhausted) ==> Queue == old(Queue)
      ensures forall i :: 0 <= i < |batch| ==> batch[i] < |old(ActivePaths())|
      ensures done <= |batch|
      ensures Queue == old(Queue) + Stored(activeDataset, old(ActivePaths()), batch[..done], decode)
    {
      batch := [];
      done := 0;
      ghost var sizes := eachClassSizes;
      SumDecremented(sizes);
      var prologue := LoadersPrologue();
      if prologue.Failure? {
        return Failure(prologue.error), batch, done;
      }
      if stopThread {
        return Success(StopSeen), batch, done;
      }
      batch, done, r := SampleAndLoad(prologue.value, draws, decode);
    }

    /** One pass of the `while (!stop_thread)` body of Loaders: draw a batch
        of class indices, then put the image of each one. */
    method SampleAndLoad(total: nat, draws: seq<nat>, decode: string -> Decoded)
      returns (batch: seq<nat>, done: nat, r: Result<Halt, LoaderError>)
      requires Valid() && !stopThread
      requires |eachClassSizes| >= 1 && total == Sampling.Sum(eachClassSizes) && 1 <= total < |ActivePaths()|
      requires forall p :: !decode(p).LoadFailed? ==> |decode(p).pixels| == SlotSize
      modifies this, imageCache.Values, labelCache.Values
      ensures Valid()
      ensures eachClassSizes == old(eachClassSizes) && imagePaths == old(imagePaths)
      ensures activeDataset == old(activeDataset) && stopThread == old(stopThread)
      ensures imageCache == old(imageCache) && labels == old(labels) && head == old(head)
      ensures forall d :: d in old(labelCache) ==> d in labelCache && labelCache[d] == old(labelCache[d])
      ensures forall d :: d in labelCache && d !in old(labelCache) ==> d == activeDataset && fresh(labelCache[d])
      ensures forall d :: d in imageCache && d != activeDataset ==> imageCache[d][..] == old(imageCache[d][..])
      ensures forall d :: d in old(labelCache) && d != activeDataset ==> labelCache[d][..] == old(labelCache[d][..])
      ensures r.Failure? ==> r == Failure(DrawsExhausted) && batch == [] && Queue == old(Queue)
      ensures total <= Sampling.SmallPopulation ==> r.Success?
      ensures forall i :: 0 <= i < |batch| ==> batch[i] < |old(ActivePaths())|
      ensures done <= |batch|
      ensures Queue == old(Queue) + Stored(activeDataset, old(ActivePaths()), batch[..done], decode)
    {
      batch := [];
      done := 0;
      var sample := SampleBatch(Capacity, eachClassSizes, total, draws);
      if sample.Failure? {
        return batch, done, Failure(DrawsExhausted);
      }
      batch := sample.value;
      var halt;
      done, halt := LoadBatch(batch, decode);
      r := Success(halt);
    }

    /** Stop: raise the flag both waits give way to. */
    method Stop()
      requires Valid()
      modifies this
      ensures Valid()
      ensures stopThread
      ensures eachClassSizes == old(eachClassSizes) && imagePaths == old(imagePaths) && imageCache == old(imageCache)
      ensures labelCache == old(labelCache) && labels == old(labels) && activeDataset == old(activeDataset)
      ensures head == old(head) && tail == old(tail) && count == old(count) && Queue == old(Queue)
    {
      stopThread := true;
    }
  }
}
