/** extract_frames (src/video_processing.py): empty the temp_frames folder,
    then read a clip frame by frame and write numbered JPEG files. */
module Frames {
  import opened Wrappers
  import opened Text

  /** The k-th decodable frame of the clip at `clip`; pixels are not modelled. */
  datatype Frame = Frame(clip: string, k: nat)

  /** An entry of the frame folder. */
  datatype Entry =
    | Subdir                  // os.path.isfile is false: left alone by the clearing loop
    | OtherFile               // any regular file from before
    | FrameImage(frame: Frame) // a JPEG written by cv2.imwrite

  predicate IsFile(e: Entry) { !e.Subdir? }

  /** '../data/clips/{}/{}_{}.mp4'.format(play_type, play_type, clip_number) */
  function ClipPath(playType: string, clipNumber: nat): string
  {
    "../data/clips/" + playType + "/" + playType + "_" + NatToString(clipNumber) + ".mp4"
  }

  /** The clip lives in the play type's folder under ../data/clips and is an
      .mp4 file. */
  lemma ClipPathShape(playType: string, clipNumber: nat)
    ensures |ClipPath(playType, clipNumber)| >= 14 + 2 * |playType| + 6
    ensures ClipPath(playType, clipNumber)[..14] == "../data/clips/"
    ensures ClipPath(playType, clipNumber)[14..14 + |playType|] == playType
    ensures ClipPath(playType, clipNumber)[14 + |playType|] == '/'
    ensures ClipPath(playType, clipNumber)[|ClipPath(playType, clipNumber)| - 4..] == ".mp4"
  {
    var p := ClipPath(playType, clipNumber);
    assert p == "../data/clips/" + (playType + ("/" + playType + "_" + NatToString(clipNumber) + ".mp4"));
  }

  /** '{}_{}_frame_{}.jpg'.format(play_type, clip_number, count): the name
      inside the frame folder (the code writes it to
      "../data/broadcast_imgs/temp_frames/" followed by this name). */
  function FrameName(playType: string, clipNumber: nat, count: nat): string
  {
    playType + "_" + NatToString(clipNumber) + "_frame_" + NatToString(count) + ".jpg"
  }

  /** A frame file name starts with the play type and is a .jpg file. */
  lemma FrameNameShape(playType: string, clipNumber: nat, count: nat)
    ensures |FrameName(playType, clipNumber, count)| >= |playType| + 14
    ensures FrameName(playType, clipNumber, count)[..|playType|] == playType
    ensures FrameName(playType, clipNumber, count)[|FrameName(playType, clipNumber, count)| - 4..] == ".jpg"
  {
    var s := FrameName(playType, clipNumber, count);
    assert s == playType + ("_" + NatToString(clipNumber) + "_frame_" + NatToString(count) + ".jpg");
  }

  /** Different counters give different file names, so no write of one run
      overwrites another write of the same run. */
  lemma FrameNamesDistinct(playType: string, clipNumber: nat, a: nat, b: nat)
    requires FrameName(playType, clipNumber, a) == FrameName(playType, clipNumber, b)
    ensures a == b
  {
    var prefix := playType + "_" + NatToString(clipNumber) + "_frame_";
    var sa, sb := NatToString(a) + ".jpg", NatToString(b) + ".jpg";
    assert FrameName(playType, clipNumber, a) == prefix + sa;
    assert FrameName(playType, clipNumber, b) == prefix + sb;
    assert sa == (prefix + sa)[|prefix|..];
    assert sb == (prefix + sb)[|prefix|..];
    assert NatToString(a) == sa[..|sa| - 4] == sb[..|sb| - 4] == NatToString(b);
    NatToStringInjective(a, b);
  }

  // ---------------------------------------------------------------------
  // The frame folder

  /** What is left after the clearing loop: subdirectories, and the regular
      files whose unlink failed. */
  function Cleared(entries: map<string, Entry>, undeletable: set<string>): map<string, Entry>
  {
    map n | n in entries && (!IsFile(entries[n]) || n in undeletable) :: entries[n]
  }

  /** The names whose unlink raised, in listing order: each is printed and
      the loop goes on. */
  function FailedUnlinks(entries: map<string, Entry>, order: seq<string>, undeletable: set<string>): seq<string>
  {
    if order == [] then []
    else
      var n := order[|order| - 1];
      FailedUnlinks(entries, order[..|order| - 1], undeletable) +
        (if n in entries && IsFile(entries[n]) && n in undeletable then [n] else [])
  }

  /** The folder ../data/broadcast_imgs/temp_frames: whether it exists, and
      its entries by name. */
  class FrameFolder {
    const present: bool
    var entries: map<string, Entry>

    constructor (present: bool, entries: map<string, Entry>)
      requires !present ==> entries == map[]
      ensures this.present == present && this.entries == entries
    {
      this.present := present;
      this.entries := entries;
    }

    /** Lines 86-93: for every name os.listdir returns, unlink it when it is
        a regular file; an unlink that raises is reported and skipped.  When
        the folder does not exist, os.listdir raises outside the try, and
        `listed` is false with nothing changed. */
    method Clear(order: seq<string>, undeletable: set<string>) returns (listed: bool, errors: seq<string>)
      requires forall n :: n in order <==> n in entries
      requires forall i, j :: 0 <= i < j < |order| ==> order[i] != order[j]
      modifies this
      ensures listed == present
      ensures !present ==> entries == old(entries) && errors == []
      ensures present ==> entries == Cleared(old(entries), undeletable)
      ensures present ==> errors == FailedUnlinks(old(entries), order, undeletable)
    {
      listed := present;
      errors := [];
      if !present {
        return;
      }
      for i := 0 to |order|
        invariant forall n :: n in entries <==>
          n in old(entries) && (n !in order[..i] || !IsFile(old(entries)[n]) || n in undeletable)
        invariant forall n :: n in entries ==> entries[n] == old(entries)[n]
        invariant errors == FailedUnlinks(old(entries), order[..i], undeletable)
      {
        var name := order[i];
        assert order[..i + 1][..i] == order[..i];
        assert name !in order[..i];
        if name in entries && IsFile(entries[name]) {
          if name in undeletable {
            errors := errors + [name];
          } else {
            entries := entries - {name};
          }
        }
      }
      assert order[..|order|] == order;
    }

    /** cv2.imwrite(path, image): a frame becomes a JPEG under that name; a
        write without a frame leaves the folder as it was. */
    method Write(name: string, image: Option<Frame>)
      modifies this
      ensures entries == if image.Some? then old(entries)[name := FrameImage(image.value)] else old(entries)
    {
      if image.Some? {
        entries := entries[name := FrameImage(image.value)];
      }
    }
  }

  // ---------------------------------------------------------------------
  // The video

  /** cv2.VideoCapture over a clip with `length` decodable frames (none when
      the file cannot be opened). */
  class VideoCapture {
    const source: string
    const length: nat
    var position: nat

    constructor (source: string, length: nat)
      ensures this.source == source && this.length == length && position == 0
    {
      this.source := source;
      this.length := length;
      position := 0;
    }

    /** vidcap.read(): the next frame, or (False, None) past the end. */
    method Read() returns (success: bool, image: Option<Frame>)
      requires position <= length
      modifies this
      ensures position <= length
      ensures success == (old(position) < length)
      ensures success ==> image == Some(Frame(source, old(position))) && position == old(position) + 1
      ensures !success ==> image == None && position == old(position)
    {
      success := position < length;
      if success {
        image := Some(Frame(source, position));
        position := position + 1;
      } else {
        image := None;
      }
    }
  }

  /** The number of decodable frames of the clip at a path; a path that
      cannot be opened reads as an empty clip. */
  function ClipLength(clips: map<string, nat>, path: string): nat
  {
    if path in clips then clips[path] else 0
  }

  /** The cv2.imwrite calls lines 98-107 make for a clip of n frames: the
      counter names the file, and the image is the frame after the one the
      priming read discarded; the read that fails is followed by one more
      write, with no frame. */
  function Attempts(playType: string, clipNumber: nat, clip: string, n: nat): seq<(string, Option<Frame>)>
  {
    var total := if n == 0 then 1 else n;
    seq(total, k requires 0 <= k < total =>
      (FrameName(playType, clipNumber, k), if k + 1 < n then Some(Frame(clip, k + 1)) else None))
  }

  /** The folder after a sequence of writes. */
  function AfterWrites(entries: map<string, Entry>, writes: seq<(string, Option<Frame>)>): map<string, Entry>
  {
    if writes == [] then entries
    else
      var before := AfterWrites(entries, writes[..|writes| - 1]);
      var (name, image) := writes[|writes| - 1];
      if image.Some? then before[name := FrameImage(image.value)] else before
  }

  /** Lines 98-107: the priming read, then read-and-write until a read
      fails, writing once more after the failing read. */
  method WriteClipFrames(folder: FrameFolder, cap: VideoCapture, playType: string, clipNumber: nat)
    returns (writes: seq<(string, Option<Frame>)>)
    requires cap.position == 0
    modifies folder, cap
    ensures writes == Attempts(playType, clipNumber, cap.source, cap.length)
    ensures folder.entries == AfterWrites(old(folder.entries), writes)
  {
    ghost var start := folder.entries;
    ghost var n := cap.length;
    ghost var all := Attempts(playType, clipNumber, cap.source, n);
    var success, image := cap.Read();   // the priming read; its frame is dropped
    var count := 0;
    success := true;
    writes := [];
    while success
      invariant cap.length == n && cap.position <= n
      invariant success ==> count < |all| && cap.position == if n == 0 then 0 else count + 1
      invariant !success ==> count == |all|
      invariant writes == all[..count]
      invariant folder.entries == AfterWrites(start, writes)
      decreases n - cap.position + (if success then 1 else 0)
    {
      success, image := cap.Read();
      var name := FrameName(playType, clipNumber, count);
      assert all[count] == (name, image);
      folder.Write(name, image);
      assert all[..count + 1] == all[..count] + [(name, image)];
      writes := writes + [(name, image)];
      count := count + 1;
    }
    assert all[..count] == all;
  }

  /** extract_frames(play_type, clip_number) over the frame folder, with the
      clips on disk given by their frame counts, the listing order of the
      folder and the names whose unlink fails.  `listed` is false when the
      folder is missing and the call raises before any read. */
  method ExtractFrames(folder: FrameFolder, playType: string, clipNumber: nat,
                       clips: map<string, nat>, order: seq<string>, undeletable: set<string>)
    returns (listed: bool, errors: seq<string>, writes: seq<(string, Option<Frame>)>)
    requires forall n :: n in order <==> n in folder.entries
    requires forall i, j :: 0 <= i < j < |order| ==> order[i] != order[j]
    modifies folder
    ensures listed == folder.present
    ensures !folder.present ==> errors == [] && writes == [] && folder.entries == old(folder.entries)
    ensures folder.present ==>
      var clip := ClipPath(playType, clipNumber);
      writes == Attempts(playType, clipNumber, clip, ClipLength(clips, clip)) &&
      folder.entries == AfterWrites(Cleared(old(folder.entries), undeletable), writes)
    ensures folder.present ==> errors == FailedUnlinks(old(folder.entries), order, undeletable)
  {
    writes := [];
    listed, errors := folder.Clear(order, undeletable);
    if !listed {
      return;   // FileNotFoundError from os.listdir: no clip is opened
    }
    var clip := ClipPath(playType, clipNumber);
    var cap := new VideoCapture(clip, ClipLength(clips, clip));
    writes := WriteClipFrames(folder, cap, playType, clipNumber);
  }

  // ---------------------------------------------------------------------
  // What the writes leave in the folder

  /** A write with a frame that no later write overwrites is what the
      folder holds under that name. */
  lemma {:induction false} AfterWritesKeeps(entries: map<string, Entry>, writes: seq<(string, Option<Frame>)>, i: nat)
    requires i < |writes| && writes[i].1.Some?
    requires forall j :: i < j < |writes| ==> writes[j].0 != writes[i].0
    ensures writes[i].0 in AfterWrites(entries, writes)
    ensures AfterWrites(entries, writes)[writes[i].0] == FrameImage(writes[i].1.value)
  {
    if i < |writes| - 1 {
      AfterWritesKeeps(entries, writes[..|writes| - 1], i);
    }
  }

  /** Every entry after the writes either was there before, untouched, or
      holds the frame of one of the writes. */
  lemma {:induction false} AfterWritesOrigin(entries: map<string, Entry>, writes: seq<(string, Option<Frame>)>)
    ensures forall name :: name in entries ==> name in AfterWrites(entries, writes)
    ensures forall name :: name in AfterWrites(entries, writes) ==>
      (name in entries && AfterWrites(entries, writes)[name] == entries[name]) ||
      (AfterWrites(entries, writes)[name].FrameImage? &&
       (name, Some(AfterWrites(entries, writes)[name].frame)) in writes)
  {
    if writes != [] {
      var init := writes[..|writes| - 1];
      AfterWritesOrigin(entries, init);
      forall name | name in AfterWrites(entries, writes)
        ensures (name in entries && AfterWrites(entries, writes)[name] == entries[name]) ||
          (AfterWrites(entries, writes)[name].FrameImage? &&
           (name, Some(AfterWrites(entries, writes)[name].frame)) in writes)
      {
        if name != writes[|writes| - 1].0 || writes[|writes| - 1].1.None? {
          assert name in AfterWrites(entries, init);
          assert forall w :: w in init ==> w in writes;
        }
      }
    }
  }

  /** After extract_frames as written, file k holds frame k + 1 for every
      k < n - 1, and frame 0 of the clip is in the folder only if it was
      left there by an earlier run. */
  lemma AsWrittenFiles(entries: map<string, Entry>, playType: string, clipNumber: nat, clip: string, n: nat)
    ensures forall k :: 0 <= k < n - 1 ==>
      FrameName(playType, clipNumber, k) in AfterWrites(entries, Attempts(playType, clipNumber, clip, n)) &&
      AfterWrites(entries, Attempts(playType, clipNumber, clip, n))[FrameName(playType, clipNumber, k)]
        == FrameImage(Frame(clip, k + 1))
    ensures forall name ::
      (name in AfterWrites(entries, Attempts(playType, clipNumber, clip, n)) &&
       AfterWrites(entries, Attempts(playType, clipNumber, clip, n))[name] == FrameImage(Frame(clip, 0))) ==>
      name in entries && entries[name] == FrameImage(Frame(clip, 0))
  {
    var writes := Attempts(playType, clipNumber, clip, n);
    forall k | 0 <= k < n - 1
      ensures FrameName(playType, clipNumber, k) in AfterWrites(entries, writes) &&
        AfterWrites(entries, writes)[FrameName(playType, clipNumber, k)] == FrameImage(Frame(clip, k + 1))
    {
      forall j | k < j < |writes| ensures writes[j].0 != writes[k].0 {
        if writes[j].0 == writes[k].0 {
          FrameNamesDistinct(playType, clipNumber, j, k);
        }
      }
      AfterWritesKeeps(entries, writes, k);
    }
    AfterWritesOrigin(entries, writes);
    forall name | name in AfterWrites(entries, writes) && AfterWrites(entries, writes)[name] == FrameImage(Frame(clip, 0))
      ensures name in entries && entries[name] == FrameImage(Frame(clip, 0))
    {
    }
  }

  /** The writes the evident intent calls for: frame k of the clip under
      counter k, for every frame, and nothing after the last one. */
  function EveryFrame(playType: string, clipNumber: nat, clip: string, n: nat): seq<(string, Option<Frame>)>
  {
    seq(n, k requires 0 <= k < n => (FrameName(playType, clipNumber, k), Some(Frame(clip, k))))
  }

  /** After the corrected extraction, file k holds frame k for every k < n. */
  lemma EveryFrameFiles(entries: map<string, Entry>, playType: string, clipNumber: nat, clip: string, n: nat)
    ensures forall k :: 0 <= k < n ==>
      FrameName(playType, clipNumber, k) in AfterWrites(entries, EveryFrame(playType, clipNumber, clip, n)) &&
      AfterWrites(entries, EveryFrame(playType, clipNumber, clip, n))[FrameName(playType, clipNumber, k)]
        == FrameImage(Frame(clip, k))
  {
    var writes := EveryFrame(playType, clipNumber, clip, n);
    forall k | 0 <= k < n
      ensures FrameName(playType, clipNumber, k) in AfterWrites(entries, writes) &&
        AfterWrites(entries, writes)[FrameName(playType, clipNumber, k)] == FrameImage(Frame(clip, k))
    {
      forall j | k < j < |writes| ensures writes[j].0 != writes[k].0 {
        if writes[j].0 == writes[k].0 {
          FrameNamesDistinct(playType, clipNumber, j, k);
        }
      }
      AfterWritesKeeps(entries, writes, k);
    }
  }

  /** A one-frame clip: the code as written makes a single write, under
      counter 0 and with no frame, where the evident intent writes frame 0. */
  lemma OneFrameClip(playType: string, clipNumber: nat, clip: string)
    ensures Attempts(playType, clipNumber, clip, 1) == [(FrameName(playType, clipNumber, 0), None)]
    ensures EveryFrame(playType, clipNumber, clip, 1) == [(FrameName(playType, clipNumber, 0), Some(Frame(clip, 0)))]
  {
  }

  /** The corrected read loop: read until a read fails, writing frame k
      under counter k. */
  method WriteEveryFrame(folder: FrameFolder, cap: VideoCapture, playType: string, clipNumber: nat)
    returns (writes: seq<(string, Option<Frame>)>)
    requires cap.position == 0
    modifies folder, cap
    ensures writes == EveryFrame(playType, clipNumber, cap.source, cap.length)
    ensures folder.entries == AfterWrites(old(folder.entries), writes)
  {
    ghost var start := folder.entries;
    ghost var all := EveryFrame(playType, clipNumber, cap.source, cap.length);
    var count := 0;
    writes := [];
    while true
      invariant cap.position == count <= cap.length == |all|
      invariant writes == all[..count]
      invariant folder.entries == AfterWrites(start, writes)
      decreases cap.length - cap.position
    {
      var success, image := cap.Read();
      if !success {
        break;
      }
      var name := FrameName(playType, clipNumber, count);
      assert all[count] == (name, image);
      folder.Write(name, image);
      assert all[..count + 1] == all[..count] + [(name, image)];
      writes := writes + [(name, image)];
      count := count + 1;
    }
    assert all[..count] == all;
  }

  /** extract_frames with the priming read removed and the loop leaving as
      soon as a read fails. */
  method ExtractEveryFrame(folder: FrameFolder, playType: string, clipNumber: nat,
                           clips: map<string, nat>, order: seq<string>, undeletable: set<string>)
    returns (listed: bool, errors: seq<string>, writes: seq<(string, Option<Frame>)>)
    requires forall n :: n in order <==> n in folder.entries
    requires forall i, j :: 0 <= i < j < |order| ==> order[i] != order[j]
    modifies folder
    ensures listed == folder.present
    ensures !folder.present ==> errors == [] && writes == [] && folder.entries == old(folder.entries)
    ensures folder.present ==>
      var clip := ClipPath(playType, clipNumber);
      writes == EveryFrame(playType, clipNumber, clip, ClipLength(clips, clip)) &&
      folder.entries == AfterWrites(Cleared(old(folder.entries), undeletable), writes)
    ensures folder.present ==> errors == FailedUnlinks(old(folder.entries), order, undeletable)
  {
    writes := [];
    listed, errors := folder.Clear(order, undeletable);
    if !listed {
      return;   // FileNotFoundError from os.listdir: no clip is opened
    }
    var clip := ClipPath(playType, clipNumber);
    var cap := new VideoCapture(clip, ClipLength(clips, clip));
    writes := WriteEveryFrame(folder, cap, playType, clipNumber);
  }
}
