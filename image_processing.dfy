/** src/image_processing.py: reading a folder of images (get_all_images) and
    the channel dispatch that runs before the list is stacked into an array
    (images_to_array). */
module ImageProcessing {
  import opened Wrappers
  import opened Imaging
  import opened Text

  datatype ReadError = FolderNotFound(folder: string) | Unreadable(path: string)

  /** get_image: skimage's imread, then a resize to 240 x 240 that keeps the
      channel axis.  None when the file cannot be decoded (imread raises). */
  function GetImage(disk: Disk, path: string): (r: Option<Image>)
    ensures r.Some? <==> path in disk.files
    ensures r.Some? ==>
      r.value.shape[0] == Side && r.value.shape[1] == Side &&
      r.value.shape[2..] == disk.files[path].shape[2..]
  {
    if path in disk.files then Some(SkResize(disk.files[path], Side, Side)) else None
  }

  /** get_all_images: one resized image per entry of os.listdir(folder), in
      listing order; the first entry that cannot be decoded aborts the call,
      and so does a folder that does not exist. */
  method GetAllImages(disk: Disk, folder: string) returns (r: Result<seq<Image>, ReadError>)
    ensures folder !in disk.listing ==> r == Err(FolderNotFound(folder))
    ensures folder in disk.listing && r.Ok? ==>
      var names := disk.listing[folder];
      |r.value| == |names| &&
      forall i :: 0 <= i < |names| ==>
        Join(folder, names[i]) in disk.files &&
        r.value[i] == SkResize(disk.files[Join(folder, names[i])], Side, Side)
    ensures folder in disk.listing && r.Err? ==>
      var names := disk.listing[folder];
      exists k :: 0 <= k < |names| && r.error == Unreadable(Join(folder, names[k])) &&
        Join(folder, names[k]) !in disk.files &&
        forall j :: 0 <= j < k ==> Join(folder, names[j]) in disk.files
  {
    if folder !in disk.listing {
      return Err(FolderNotFound(folder));
    }
    var names := disk.listing[folder];
    var images: seq<Image> := [];
    for i := 0 to |names|
      invariant |images| == i
      invariant forall j :: 0 <= j < i ==>
        Join(folder, names[j]) in disk.files &&
        images[j] == SkResize(disk.files[Join(folder, names[j])], Side, Side)
    {
      var path := Join(folder, names[i]);
      var img := GetImage(disk, path);
      if img.None? {
        return Err(Unreadable(path));
      }
      images := images + [img.value];
    }
    return Ok(images);
  }

  /** The Python list handed to images_to_array; the function changes the
      caller's list object itself. */
  class ImageList {
    var items: seq<Image>

    constructor (items: seq<Image>)
      ensures this.items == items
    {
      this.items := items;
    }
  }

  /** The state of the `for n, img in enumerate(image_list)` walk: the list
      as it stands and the next index the iterator will read.  A 2-D image
      is popped (everything behind it moves one place left, and the iterator
      still advances); an RGBA image is replaced where it stands. */
  function Walk(s: seq<Image>, n: nat): seq<Image>
    decreases |s| - n
  {
    if n >= |s| then s
    else if IsGray(s[n]) then Walk(s[..n] + s[n + 1..], n + 1)
    else if IsRgba(s[n]) then Walk(s[n := Rgba2Rgb(s[n])], n + 1)
    else Walk(s, n + 1)
  }

  /** images_to_array, up to np.array: runs the channel dispatch over the
      caller's list and returns what is left of it. */
  method ImagesToArray(list: ImageList) returns (arr: seq<Image>)
    modifies list
    ensures list.items == Walk(old(list.items), 0)
    ensures arr == list.items
  {
    var n := 0;
    while n < |list.items|
      invariant Walk(list.items, n) == Walk(old(list.items), 0)
      decreases |list.items| + 1 - n
    {
      var img := list.items[n];
      if IsGray(img) {
        list.items := list.items[..n] + list.items[n + 1..];   // image_list.pop(n)
      }
      if IsRgba(img) {
        // no pop happened in this round, so index n still holds img
        assert list.items[n] == img;
        list.items := list.items[n := Rgba2Rgb(img)];
      }
      n := n + 1;
    }
    arr := list.items;
  }

  // ---------------------------------------------------------------------
  // What happens to each element of the original list

  /** The fate of one element of the caller's list. */
  datatype Fate =
    | Dropped     // inspected, 2-D: popped
    | Converted   // inspected, RGBA: replaced by its RGB conversion
    | Kept        // inspected, anything else: left alone
    | Skipped     // never inspected: it moved into the slot the iterator had just read

  /** The verdict line 57 and line 60 give an inspected image. */
  function Dispatch(img: Image): Fate
  {
    if IsGray(img) then Dropped else if IsRgba(img) then Converted else Kept
  }

  /** The fates of the elements of the original list, read left to right:
      a popped image takes the image behind it out of the iterator's reach. */
  function Fates(s: seq<Image>): (f: seq<Fate>)
    ensures |f| == |s|
    ensures forall i :: 0 <= i < |s| && f[i] == Converted ==> IsRgba(s[i])
  {
    if s == [] then []
    else if IsGray(s[0]) then (if |s| == 1 then [Dropped] else [Dropped, Skipped] + Fates(s[2..]))
    else if IsRgba(s[0]) then [Converted] + Fates(s[1..])
    else [Kept] + Fates(s[1..])
  }

  predicate Consistent(s: seq<Image>, f: seq<Fate>)
  {
    |f| == |s| && forall i :: 0 <= i < |s| && f[i] == Converted ==> IsRgba(s[i])
  }

  /** The image an element contributes when it is not dropped. */
  function Transform(img: Image, fate: Fate): Image
    requires fate == Converted ==> IsRgba(img)
  {
    if fate == Converted then Rgba2Rgb(img) else img
  }

  /** The list that results when every element meets its fate. */
  function Apply(s: seq<Image>, f: seq<Fate>): seq<Image>
    requires Consistent(s, f)
  {
    if s == [] then []
    else (if f[0] == Dropped then [] else [Transform(s[0], f[0])]) + Apply(s[1..], f[1..])
  }

  /** How many elements of a fate sequence survive. */
  function Survivors(f: seq<Fate>): nat
  {
    if f == [] then 0 else (if f[0] == Dropped then 0 else 1) + Survivors(f[1..])
  }

  /** An element is inspected exactly when the element before it was not
      popped; an inspected element meets the fate its shape dictates. */
  lemma {:induction false} FatesExplained(s: seq<Image>, i: nat)
    requires i < |s|
    ensures Fates(s)[i] == Skipped <==> i > 0 && Fates(s)[i - 1] == Dropped
    ensures Fates(s)[i] != Skipped ==> Fates(s)[i] == Dispatch(s[i])
    decreases |s|
  {
    var f := Fates(s);
    if IsGray(s[0]) {
      if i >= 2 {
        FatesExplained(s[2..], i - 2);
        if i == 2 {
          assert f[1] == Skipped;
        }
      }
    } else if i >= 1 {
      FatesExplained(s[1..], i - 1);
      if i == 1 {
        assert f[0] == Dispatch(s[0]);
      }
    }
  }

  /** The walk, started at index n, leaves the first n elements alone and
      gives every later element its fate. */
  lemma {:induction false} WalkMeetsFates(t: seq<Image>, n: nat)
    requires n <= |t|
    ensures Walk(t, n) == t[..n] + Apply(t[n..], Fates(t[n..]))
    decreases |t| - n
  {
    if n == |t| {
      assert t[..n] == t;
    } else if IsGray(t[n]) {
      if n + 1 < |t| {
        WalkMeetsFates(t[..n] + t[n + 1..], n + 1);
      }
      WalkPopStep(t, n);
    } else {
      var u := if IsRgba(t[n]) then t[n := Rgba2Rgb(t[n])] else t;
      WalkMeetsFates(u, n + 1);
      WalkInspectStep(t, n);
    }
  }

  /** One round of the walk that pops: the element behind the popped one is
      passed over. */
  lemma WalkPopStep(t: seq<Image>, n: nat)
    requires n < |t|
    ensures var u := t[..n] + t[n + 1..];
      IsGray(t[n]) && (n + 1 < |t| ==> Walk(u, n + 1) == u[..n + 1] + Apply(u[n + 1..], Fates(u[n + 1..]))) ==>
      Walk(t, n) == t[..n] + Apply(t[n..], Fates(t[n..]))
  {
    if IsGray(t[n]) {
      if n + 1 == |t| {
        WalkPopLast(t, n);
      } else {
        WalkPopInner(t, n);
      }
    }
  }

  lemma WalkPopLast(t: seq<Image>, n: nat)
    requires n + 1 == |t|
    ensures IsGray(t[n]) ==> Walk(t, n) == t[..n] + Apply(t[n..], Fates(t[n..]))
  {
    if IsGray(t[n]) {
      var u := t[..n] + t[n + 1..];
      assert u == t[..n];
      assert Walk(t, n) == Walk(u, n + 1) == t[..n];
      assert t[n..] == [t[n]];
      assert Fates(t[n..]) == [Dropped];
      assert Apply(t[n..], Fates(t[n..])) == [];
    }
  }

  lemma WalkPopInner(t: seq<Image>, n: nat)
    requires n + 1 < |t|
    ensures var u := t[..n] + t[n + 1..];
      IsGray(t[n]) && Walk(u, n + 1) == u[..n + 1] + Apply(u[n + 1..], Fates(u[n + 1..])) ==>
      Walk(t, n) == t[..n] + Apply(t[n..], Fates(t[n..]))
  {
    var u := t[..n] + t[n + 1..];
    if IsGray(t[n]) && Walk(u, n + 1) == u[..n + 1] + Apply(u[n + 1..], Fates(u[n + 1..])) {
      var rest := Apply(t[n + 2..], Fates(t[n + 2..]));
      assert u[..n + 1] == t[..n] + [t[n + 1]];
      assert u[n + 1..] == t[n + 2..];
      ApplyGrayHead(t[n..]);
      assert t[n..][2..] == t[n + 2..];
      assert Apply(t[n..], Fates(t[n..])) == [t[n + 1]] + rest;
      assert Walk(t, n) == (t[..n] + [t[n + 1]]) + rest;
    }
  }

  /** One round of the walk that does not pop. */
  lemma WalkInspectStep(t: seq<Image>, n: nat)
    requires n < |t|
    ensures var u := if IsRgba(t[n]) then t[n := Rgba2Rgb(t[n])] else t;
      !IsGray(t[n]) && Walk(u, n + 1) == u[..n + 1] + Apply(u[n + 1..], Fates(u[n + 1..])) ==>
      Walk(t, n) == t[..n] + Apply(t[n..], Fates(t[n..]))
  {
    var u := if IsRgba(t[n]) then t[n := Rgba2Rgb(t[n])] else t;
    if !IsGray(t[n]) {
      assert u[..n + 1] == t[..n] + [Transform(t[n], Dispatch(t[n]))];
      assert u[n + 1..] == t[n + 1..];
      ApplyInspectedHead(t[n..]);
      assert t[n..][1..] == t[n + 1..];
    }
  }

  lemma ApplyGrayHead(s: seq<Image>)
    requires |s| >= 2
    ensures IsGray(s[0]) ==> Apply(s, Fates(s)) == [s[1]] + Apply(s[2..], Fates(s[2..]))
  {
    if IsGray(s[0]) {
      var f := Fates(s);
      assert f == [Dropped, Skipped] + Fates(s[2..]);
      assert f[1..][1..] == Fates(s[2..]);
      assert s[1..][1..] == s[2..];
    }
  }

  lemma ApplyInspectedHead(s: seq<Image>)
    requires |s| >= 1
    ensures !IsGray(s[0]) ==>
      Apply(s, Fates(s)) == [Transform(s[0], Dispatch(s[0]))] + Apply(s[1..], Fates(s[1..]))
  {
    if !IsGray(s[0]) {
      assert Fates(s) == [Dispatch(s[0])] + Fates(s[1..]);
    }
  }

  /** What images_to_array leaves in the caller's list: each element of the
      original meets its fate, in the original order. */
  lemma ImagesToArrayOutcome(s: seq<Image>)
    ensures Walk(s, 0) == Apply(s, Fates(s))
  {
    WalkMeetsFates(s, 0);
    assert s[0..] == s;
  }

  /** Every element that is not dropped lands at the position given by the
      number of survivors before it, so survivors keep their relative order,
      and the list shrinks by exactly the number of pops. */
  lemma {:induction false} ApplyPositions(s: seq<Image>, f: seq<Fate>, i: nat)
    requires Consistent(s, f) && i < |s| && f[i] != Dropped
    ensures |Apply(s, f)| == Survivors(f)
    ensures Survivors(f[..i]) < |Apply(s, f)|
    ensures Apply(s, f)[Survivors(f[..i])] == Transform(s[i], f[i])
    decreases |s|
  {
    ApplyLength(s, f);
    if i > 0 {
      ApplyPositions(s[1..], f[1..], i - 1);
      assert f[..i][1..] == f[1..][..i - 1];
    }
  }

  lemma {:induction false} ApplyLength(s: seq<Image>, f: seq<Fate>)
    requires Consistent(s, f)
    ensures |Apply(s, f)| == Survivors(f)
    decreases |s|
  {
    if s != [] {
      ApplyLength(s[1..], f[1..]);
    }
  }

  /** The number of elements images_to_array removes is the number of pops. */
  lemma {:induction false} PopCount(f: seq<Fate>)
    ensures Survivors(f) + multiset(f)[Dropped] == |f|
  {
    if f != [] {
      PopCount(f[1..]);
      assert f == [f[0]] + f[1..];
    }
  }

  /** The properties of images_to_array, stated on the caller's list s:
      an inspected 2-D image is gone, an inspected RGBA image is replaced
      in place by an RGB image of the same height and width, anything else
      that is inspected stays as it was, and the image right behind a
      popped one is never inspected and survives exactly as it was. */
  lemma ImagesToArrayElement(s: seq<Image>, i: nat)
    requires i < |s|
    ensures var f, r := Fates(s), Walk(s, 0);
      |r| == |s| - multiset(f)[Dropped] &&
      (f[i] != Dropped ==> Survivors(f[..i]) < |r|) &&
      (f[i] == Dropped <==> IsGray(s[i]) && (i == 0 || f[i - 1] != Dropped)) &&
      (f[i] == Converted ==> IsRgba(s[i]) && IsRgb(r[Survivors(f[..i])]) &&
                             SameSize(r[Survivors(f[..i])], s[i])) &&
      (f[i] == Kept ==> !IsGray(s[i]) && !IsRgba(s[i]) && r[Survivors(f[..i])] == s[i]) &&
      (i > 0 && f[i - 1] == Dropped ==> f[i] == Skipped && r[Survivors(f[..i])] == s[i])
  {
    var f := Fates(s);
    ImagesToArrayOutcome(s);
    ApplyLength(s, f);
    PopCount(f);
    FatesExplained(s, i);
    if f[i] != Dropped {
      ApplyPositions(s, f, i);
    }
  }

  /** A concrete instance of the skip: of two grayscale images only the first
      is inspected, so the second one survives and the result still holds
      an image the stacked array cannot take. */
  lemma GrayPairLeavesGray(g: Image, h: Image)
    requires IsGray(g) && IsGray(h)
    ensures Walk([g, h], 0) == [h]
    ensures IsGray(Walk([g, h], 0)[0])
  {
    ImagesToArrayOutcome([g, h]);
    assert [g, h][2..] == [];
  }

  // ---------------------------------------------------------------------
  // The dispatch as intended: every image inspected, grayscale dropped

  /** Every grayscale image dropped, every RGBA image converted, the rest
      kept, in order. */
  function Normalized(s: seq<Image>): seq<Image>
  {
    if s == [] then []
    else
      var head := if IsGray(s[0]) then [] else if IsRgba(s[0]) then [Rgba2Rgb(s[0])] else [s[0]];
      head + Normalized(s[1..])
  }

  /** The corrected dispatch: it reads the input list without changing it
      and builds a new one, so no element escapes inspection. */
  method NormalizeChannels(images: seq<Image>) returns (out: seq<Image>)
    ensures out == Normalized(images)
    ensures forall k :: 0 <= k < |out| ==> !IsGray(out[k]) && !IsRgba(out[k])
  {
    out := [];
    for i := 0 to |images|
      invariant Normalized(images) == out + Normalized(images[i..])
      invariant forall k :: 0 <= k < |out| ==> !IsGray(out[k]) && !IsRgba(out[k])
    {
      assert images[i..][1..] == images[i + 1..];
      var img := images[i];
      if IsRgba(img) {
        out := out + [Rgba2Rgb(img)];
      } else if !IsGray(img) {
        out := out + [img];
      }
    }
    assert images[|images|..] == [];
  }

  /** Whatever the corrected dispatch returns is free of 2-D and RGBA images,
      so when every input is grayscale, RGB or RGBA, every output is RGB. */
  lemma {:induction false} NormalizedIsRgb(s: seq<Image>)
    requires forall i :: 0 <= i < |s| ==> IsGray(s[i]) || IsRgb(s[i]) || IsRgba(s[i])
    ensures forall k :: 0 <= k < |Normalized(s)| ==> IsRgb(Normalized(s)[k])
  {
    if s != [] {
      NormalizedIsRgb(s[1..]);
    }
  }

  /** The corrected dispatch agrees with images_to_array when no element
      escapes inspection, that is, when no grayscale image is followed by
      another element. */
  lemma {:induction false} NormalizedAgreesWithoutSkips(s: seq<Image>)
    requires forall i :: 0 <= i < |s| - 1 ==> !IsGray(s[i])
    ensures Walk(s, 0) == Normalized(s)
  {
    ImagesToArrayOutcome(s);
    ApplyWithoutSkips(s);
  }

  lemma {:induction false} ApplyWithoutSkips(s: seq<Image>)
    requires forall i :: 0 <= i < |s| - 1 ==> !IsGray(s[i])
    ensures Apply(s, Fates(s)) == Normalized(s)
  {
    if s != [] {
      ApplyWithoutSkips(s[1..]);
    }
  }
}
