/** load_images_and_labels (src/train_model.py, duplicated verbatim in
    src/models.py): for every target label, every image under that label's
    directory is decoded, converted to RGB and resized, and the label is
    appended beside it. */
module Dataset {
  import opened Wrappers
  import opened Imaging

  datatype LoadError =
    | UnboundImageDir          // `type` is neither 'google' nor 'broadcast': image_dir is never bound
    | Unreadable(path: string) // cv2.imread gave None, which cv2.cvtColor rejects

  /** The two image collections the code knows about. */
  predicate KnownKind(kind: string) { kind == "google" || kind == "broadcast" }

  /** The directory a label's images are read from; None when no branch binds
      image_dir. */
  function ImageDir(kind: string, className: string): Option<string>
  {
    if kind == "google" then Some("../data/google_imgs/" + className)
    else if kind == "broadcast" then Some("../data/broadcast_imgs/" + className)
    else None
  }

  /** Exactly the two known types bind a directory; it lies under ../data/
      and its last component, after a '/', is the label. */
  lemma ImageDirShape(kind: string, className: string)
    ensures ImageDir(kind, className).Some? <==> KnownKind(kind)
    ensures ImageDir(kind, className).Some? ==>
      var dir := ImageDir(kind, className).value;
      |dir| >= 9 + |className| && dir[|dir| - |className|..] == className &&
      dir[|dir| - |className| - 1] == '/' && dir[..8] == "../data/"
  {
    if KnownKind(kind) {
      var root := if kind == "google" then "google_imgs/" else "broadcast_imgs/";
      assert ImageDir(kind, className).value == "../data/" + (root + className);
    }
  }

  /** The image paths list_images finds for a label under a known kind. */
  function LabelPaths(disk: Disk, kind: string, className: string): seq<string>
    requires KnownKind(kind)
  {
    ListImages(disk, ImageDir(kind, className).value)
  }

  /** imread, cvtColor(BGR2RGB), resize to 240 x 240. */
  function LoadOne(disk: Disk, path: string): (r: Option<Image>)
    ensures r.Some? <==> path in disk.files
    ensures r.Some? ==> r.value.shape == [Side, Side, 3]
  {
    if path in disk.files
    then Some(CvResize(CvBgrToRgb(CvDecodeColor(disk.files[path])), Side, Side))
    else None
  }

  /** The inner loop over one directory: the images in path order, or the
      first path that cannot be decoded. */
  function LoadPaths(disk: Disk, paths: seq<string>): (r: Result<seq<Image>, LoadError>)
    ensures r.Ok? <==> forall i :: 0 <= i < |paths| ==> paths[i] in disk.files
    ensures r.Ok? ==>
      |r.value| == |paths| &&
      forall i :: 0 <= i < |paths| ==> LoadOne(disk, paths[i]) == Some(r.value[i])
    ensures r.Err? ==>
      exists k :: 0 <= k < |paths| && r.error == Unreadable(paths[k]) && paths[k] !in disk.files &&
                  forall j :: 0 <= j < k ==> paths[j] in disk.files
  {
    if paths == [] then Ok([])
    else match LoadPaths(disk, paths[..|paths| - 1])
      case Err(e) => Err(e)
      case Ok(imgs) =>
        var last := paths[|paths| - 1];
        match LoadOne(disk, last)
        case None => Err(Unreadable(last))
        case Some(img) => Ok(imgs + [img])
  }

  function Repeat(className: string, n: nat): (r: seq<string>)
    ensures |r| == n && forall i :: 0 <= i < n ==> r[i] == className
  {
    if n == 0 then [] else Repeat(className, n - 1) + [className]
  }

  /** What load_images_and_labels returns for the labels processed so far. */
  function Load(disk: Disk, targets: seq<string>, kind: string): Result<(seq<Image>, seq<string>), LoadError>
  {
    if targets == [] then Ok(([], []))
    else match Load(disk, targets[..|targets| - 1], kind)
      case Err(e) => Err(e)
      case Ok(acc) =>
        var className := targets[|targets| - 1];
        match ImageDir(kind, className)
        case None => Err(UnboundImageDir)
        case Some(dir) =>
          match LoadPaths(disk, ListImages(disk, dir))
          case Err(e) => Err(e)
          case Ok(more) => Ok((acc.0 + more, acc.1 + Repeat(className, |more|)))
  }

  /** The inner loop of load_images_and_labels (lines 45-52) over the
      paths of one label: decode each path in turn and append it. */
  method LoadLabelImages(disk: Disk, paths: seq<string>) returns (r: Result<seq<Image>, LoadError>)
    ensures r == LoadPaths(disk, paths)
  {
    var images: seq<Image> := [];
    for p := 0 to |paths|
      invariant LoadPaths(disk, paths[..p]) == Ok(images)
    {
      assert paths[..p + 1][..p] == paths[..p];
      var img := LoadOne(disk, paths[p]);
      if img.None? {
        LoadPathsErrorPersists(disk, paths, p + 1);
        assert paths[..|paths|] == paths;
        return Err(Unreadable(paths[p]));
      }
      images := images + [img.value];
    }
    assert paths[..|paths|] == paths;
    return Ok(images);
  }

  /** load_images_and_labels: the outer loop over the target labels, with
      the inner loop as LoadLabelImages and the labels appended beside the
      images. */
  method LoadImagesAndLabels(disk: Disk, targets: seq<string>, kind: string)
    returns (r: Result<(seq<Image>, seq<string>), LoadError>)
    ensures r == Load(disk, targets, kind)
  {
    var images: seq<Image> := [];
    var labels: seq<string> := [];
    for t := 0 to |targets|
      invariant Load(disk, targets[..t], kind) == Ok((images, labels))
    {
      assert targets[..t + 1][..t] == targets[..t];
      var className := targets[t];
      var imageDir := ImageDir(kind, className);
      if imageDir.None? {
        LoadErrorPersists(disk, targets, kind, t + 1);
        return Err(UnboundImageDir);
      }
      var loaded := LoadLabelImages(disk, ListImages(disk, imageDir.value));
      if loaded.Err? {
        LoadErrorPersists(disk, targets, kind, t + 1);
        return Err(loaded.error);
      }
      images := images + loaded.value;
      labels := labels + Repeat(className, |loaded.value|);
    }
    assert targets[..|targets|] == targets;
    return Ok((images, labels));
  }

  lemma {:induction false} LoadPathsErrorPersists(disk: Disk, paths: seq<string>, n: nat)
    requires n <= |paths|
    ensures LoadPaths(disk, paths[..n]).Err? ==> LoadPaths(disk, paths) == LoadPaths(disk, paths[..n])
    decreases |paths| - n
  {
    if n < |paths| {
      LoadPathsErrorPersists(disk, paths, n + 1);
      assert paths[..n + 1][..n] == paths[..n];
    } else {
      assert paths[..n] == paths;
    }
  }

  lemma {:induction false} LoadErrorPersists(disk: Disk, targets: seq<string>, kind: string, n: nat)
    requires n <= |targets|
    ensures Load(disk, targets[..n], kind).Err? ==> Load(disk, targets, kind) == Load(disk, targets[..n], kind)
    decreases |targets| - n
  {
    if n < |targets| {
      LoadErrorPersists(disk, targets, kind, n + 1);
      assert targets[..n + 1][..n] == targets[..n];
    } else {
      assert targets[..n] == targets;
    }
  }

  // ---------------------------------------------------------------------
  // Properties of the loaded dataset

  /** The returned arrays are parallel: as many labels as images, every
      label one of the targets, every image 240 x 240 with three channels. */
  lemma LoadParallel(disk: Disk, targets: seq<string>, kind: string)
    ensures Load(disk, targets, kind).Ok? ==>
      var (images, labels) := Load(disk, targets, kind).value;
      |images| == |labels| &&
      (forall i :: 0 <= i < |labels| ==> labels[i] in targets) &&
      (forall i :: 0 <= i < |images| ==> images[i].shape == [Side, Side, 3])
  {
    LoadLabels(disk, targets, kind);
    LoadShapes(disk, targets, kind);
  }

  lemma {:induction false} LoadLabels(disk: Disk, targets: seq<string>, kind: string)
    ensures Load(disk, targets, kind).Ok? ==>
      var (images, labels) := Load(disk, targets, kind).value;
      |images| == |labels| && forall i :: 0 <= i < |labels| ==> labels[i] in targets
    decreases |targets|
  {
    if targets != [] {
      var prefix := targets[..|targets| - 1];
      LoadLabels(disk, prefix, kind);
      var r := Load(disk, targets, kind);
      if r.Ok? {
        var last := targets[|targets| - 1];
        var labels := r.value.1;
        forall i | 0 <= i < |labels| ensures labels[i] in targets {
          if i < |Load(disk, prefix, kind).value.1| {
            assert labels[i] in prefix;
          } else {
            assert labels[i] == last;
          }
        }
      }
    }
  }

  lemma {:induction false} LoadShapes(disk: Disk, targets: seq<string>, kind: string)
    ensures Load(disk, targets, kind).Ok? ==>
      forall i :: 0 <= i < |Load(disk, targets, kind).value.0| ==>
        Load(disk, targets, kind).value.0[i].shape == [Side, Side, 3]
    decreases |targets|
  {
    if targets != [] {
      var prefix := targets[..|targets| - 1];
      LoadShapes(disk, prefix, kind);
      var r := Load(disk, targets, kind);
      if r.Ok? {
        var last := targets[|targets| - 1];
        var paths := ListImages(disk, ImageDir(kind, last).value);
        var more := LoadPaths(disk, paths).value;
        var before := Load(disk, prefix, kind).value.0;
        var images := r.value.0;
        assert images == before + more;
        forall i | 0 <= i < |images| ensures images[i].shape == [Side, Side, 3] {
          if i >= |before| {
            var k := i - |before|;
            assert images[i] == more[k];
            assert LoadOne(disk, paths[k]) == Some(more[k]);
          }
        }
      }
    }
  }

  /** With a `type` other than 'google' or 'broadcast' the call fails on its
      first label, and succeeds with nothing only when there is no label. */
  lemma {:induction false} LoadUnknownKind(disk: Disk, targets: seq<string>, kind: string)
    requires !KnownKind(kind)
    ensures targets == [] ==> Load(disk, targets, kind) == Ok(([], []))
    ensures targets != [] ==> Load(disk, targets, kind) == Err(UnboundImageDir)
    decreases |targets|
  {
    if |targets| > 1 {
      LoadUnknownKind(disk, targets[..|targets| - 1], kind);
    } else if |targets| == 1 {
      assert targets[..0] == [];
    }
  }

  /** The number of images found under the directories of the given labels. */
  function Found(disk: Disk, kind: string, targets: seq<string>): nat
    requires KnownKind(kind)
  {
    if targets == [] then 0
    else Found(disk, kind, targets[..|targets| - 1]) + |LabelPaths(disk, kind, targets[|targets| - 1])|
  }

  /** Every image path found for the given labels can be decoded. */
  predicate AllReadable(disk: Disk, kind: string, targets: seq<string>)
    requires KnownKind(kind)
  {
    forall j, k :: 0 <= j < |targets| && 0 <= k < |LabelPaths(disk, kind, targets[j])| ==>
      LabelPaths(disk, kind, targets[j])[k] in disk.files
  }

  /** The call succeeds exactly when every image path found can be decoded. */
  lemma {:induction false} LoadSucceeds(disk: Disk, targets: seq<string>, kind: string)
    requires KnownKind(kind)
    ensures Load(disk, targets, kind).Ok? <==> AllReadable(disk, kind, targets)
    decreases |targets|
  {
    if targets != [] {
      var prefix := targets[..|targets| - 1];
      var last := targets[|targets| - 1];
      LoadSucceeds(disk, prefix, kind);
      var paths := LabelPaths(disk, kind, last);
      assert Load(disk, targets, kind).Ok? <==>
        Load(disk, prefix, kind).Ok? && LoadPaths(disk, paths).Ok?;
      if AllReadable(disk, kind, targets) {
        forall j, k | 0 <= j < |prefix| && 0 <= k < |LabelPaths(disk, kind, prefix[j])|
          ensures LabelPaths(disk, kind, prefix[j])[k] in disk.files
        {
          assert prefix[j] == targets[j];
        }
        assert targets[|targets| - 1] == last;
      }
      if AllReadable(disk, kind, prefix) && LoadPaths(disk, paths).Ok? {
        forall j, k | 0 <= j < |targets| && 0 <= k < |LabelPaths(disk, kind, targets[j])|
          ensures LabelPaths(disk, kind, targets[j])[k] in disk.files
        {
          if j < |prefix| {
            assert prefix[j] == targets[j];
          }
        }
      }
    }
  }

  /** One more label: its images and labels are appended to those before. */
  lemma LoadStep(disk: Disk, targets: seq<string>, kind: string)
    requires KnownKind(kind) && targets != [] && Load(disk, targets, kind).Ok?
    ensures var prefix, last := targets[..|targets| - 1], targets[|targets| - 1];
      Load(disk, prefix, kind).Ok? && LoadPaths(disk, LabelPaths(disk, kind, last)).Ok? &&
      var before, more := Load(disk, prefix, kind).value, LoadPaths(disk, LabelPaths(disk, kind, last)).value;
      Load(disk, targets, kind).value == (before.0 + more, before.1 + Repeat(last, |more|))
  {
  }

  /** The k-th path of the j-th label is loaded at the number of images of
      the labels before it plus k, beside its label. */
  predicate GroupedAt(disk: Disk, targets: seq<string>, kind: string, j: nat, k: nat)
    requires KnownKind(kind) && Load(disk, targets, kind).Ok?
    requires j < |targets| && k < |LabelPaths(disk, kind, targets[j])|
  {
    var loaded := Load(disk, targets, kind).value;
    var at := Found(disk, kind, targets[..j]) + k;
    |loaded.1| == |loaded.0| == Found(disk, kind, targets) && at < |loaded.1| &&
    loaded.1[at] == targets[j] &&
    LoadOne(disk, LabelPaths(disk, kind, targets[j])[k]) == Some(loaded.0[at])
  }

  /** Labels come out grouped in target order: the images of the j-th label
      occupy the block that starts after the images of the labels before it,
      in the order list_images gives their paths, each beside its label. */
  lemma {:induction false} LoadGrouped(disk: Disk, targets: seq<string>, kind: string, j: nat, k: nat)
    requires KnownKind(kind) && Load(disk, targets, kind).Ok?
    requires j < |targets| && k < |LabelPaths(disk, kind, targets[j])|
    ensures var (images, labels) := Load(disk, targets, kind).value;
      var at := Found(disk, kind, targets[..j]) + k;
      |labels| == |images| == Found(disk, kind, targets) && at < |labels| &&
      labels[at] == targets[j] &&
      LoadOne(disk, LabelPaths(disk, kind, targets[j])[k]) == Some(images[at])
    decreases |targets|
  {
    LoadGroupedAt(disk, targets, kind, j, k);
    assert GroupedAt(disk, targets, kind, j, k);
  }

  lemma {:induction false} LoadGroupedAt(disk: Disk, targets: seq<string>, kind: string, j: nat, k: nat)
    requires KnownKind(kind) && Load(disk, targets, kind).Ok?
    requires j < |targets| && k < |LabelPaths(disk, kind, targets[j])|
    ensures GroupedAt(disk, targets, kind, j, k)
    decreases |targets|
  {
    var prefix := targets[..|targets| - 1];
    LoadStep(disk, targets, kind);
    if j < |targets| - 1 {
      assert prefix[j] == targets[j];
      LoadGroupedAt(disk, prefix, kind, j, k);
      GroupedExtends(disk, targets, kind, j, k);
    } else {
      GroupedLast(disk, targets, kind, k);
    }
  }

  /** One more label leaves the rows of the earlier labels in place. */
  lemma GroupedExtends(disk: Disk, targets: seq<string>, kind: string, j: nat, k: nat)
    requires KnownKind(kind) && targets != [] && Load(disk, targets, kind).Ok?
    requires Load(disk, targets[..|targets| - 1], kind).Ok?
    requires j < |targets| - 1 && k < |LabelPaths(disk, kind, targets[j])|
    requires GroupedAt(disk, targets[..|targets| - 1], kind, j, k)
    ensures GroupedAt(disk, targets, kind, j, k)
  {
    var prefix := targets[..|targets| - 1];
    assert prefix[..j] == targets[..j];
    assert prefix[j] == targets[j];
    LoadStep(disk, targets, kind);
    LoadCount(disk, targets, kind);
  }

  /** The last label's k-th path lands right after the rows of the labels
      before it, beside that label. */
  lemma GroupedLast(disk: Disk, targets: seq<string>, kind: string, k: nat)
    requires KnownKind(kind) && targets != [] && Load(disk, targets, kind).Ok?
    requires k < |LabelPaths(disk, kind, targets[|targets| - 1])|
    ensures GroupedAt(disk, targets, kind, |targets| - 1, k)
  {
    var prefix := targets[..|targets| - 1];
    assert prefix == targets[..|targets| - 1];
    LoadStep(disk, targets, kind);
    LoadCount(disk, targets, kind);
    LoadCount(disk, prefix, kind);
  }

  lemma {:induction false} LoadCount(disk: Disk, targets: seq<string>, kind: string)
    requires KnownKind(kind)
    ensures Load(disk, targets, kind).Ok? ==>
      |Load(disk, targets, kind).value.0| == |Load(disk, targets, kind).value.1| == Found(disk, kind, targets)
    decreases |targets|
  {
    if targets != [] {
      LoadCount(disk, targets[..|targets| - 1], kind);
    }
  }
}
