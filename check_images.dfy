/** The image-folder checker: sorts the entries of the images folder into
    images that decode, images that do not, and files of an unsupported type. */
module ImageCheck {
  import opened Text
  import opened FileNames

  /** The suffixes, lower-cased, of the files the checker tries to decode. */
  const SupportedExtensions: seq<string> := [".png", ".jpg", ".jpeg", ".gif", ".bmp", ".webp"]

  /** Below this many decodable images the checker warns that more can be added. */
  const LowCountThreshold := 50

  /** One entry of the folder: its name and whether it is a regular file. */
  datatype Entry = Entry(name: string, isFile: bool)

  /** Where the checker files an entry. */
  datatype Bin =
    | Decoded      // supported suffix, the image opened and verified
    | Corrupt      // supported suffix, opening or verifying failed
    | Unsupported  // a file with some other non-empty suffix: warned about
    | Ignored      // not a regular file, or a file without a suffix

  /** The checker's outcome: nothing at all when the folder is missing. */
  datatype Report =
    | FolderMissing
    | Checked(valid: seq<string>, invalid: seq<string>, unsupported: seq<string>, fewImages: bool)

  /** A regular file whose lower-cased suffix is one of the supported ones. */
  predicate IsCandidate(e: Entry) {
    e.isFile && Lower(Suffix(e.name)) in SupportedExtensions
  }

  /** The bin of one entry, given which names decode as images. */
  function BinOf(e: Entry, decodes: string -> bool): Bin {
    if !e.isFile then Ignored
    else
      var ext := Lower(Suffix(e.name));
      if ext in SupportedExtensions then (if decodes(e.name) then Decoded else Corrupt)
      else if ext != [] then Unsupported
      else Ignored
  }

  /** The checker's classification for a given decoding outcome. */
  function Classify(decodes: string -> bool): Entry -> Bin {
    e => BinOf(e, decodes)
  }

  /** What each bin holds: the decoded and corrupt bins together are exactly the
      candidates; a file with a non-empty unsupported suffix is warned about;
      everything else (not a regular file, or no suffix) is ignored. */
  lemma BinMeaning(e: Entry, decodes: string -> bool)
    ensures BinOf(e, decodes) == Decoded <==> IsCandidate(e) && decodes(e.name)
    ensures BinOf(e, decodes) == Corrupt <==> IsCandidate(e) && !decodes(e.name)
    ensures BinOf(e, decodes) == Unsupported <==> e.isFile && Suffix(e.name) != [] && !IsCandidate(e)
    ensures BinOf(e, decodes) == Ignored <==> !e.isFile || Suffix(e.name) == []
  {
  }

  /** The names of the entries that `bin` files in bin `b`, in iteration order. */
  function Filed(es: seq<Entry>, bin: Entry -> Bin, b: Bin): seq<string> {
    if es == [] then []
    else
      var last := es[|es| - 1];
      Filed(es[..|es| - 1], bin, b) + (if bin(last) == b then [last.name] else [])
  }

  /** The number of candidate entries. */
  function CandidateCount(es: seq<Entry>): nat {
    if es == [] then 0
    else CandidateCount(es[..|es| - 1]) + (if IsCandidate(es[|es| - 1]) then 1 else 0)
  }

  /** Filing one more entry appends its name to its own bin only. */
  lemma FiledStep(es: seq<Entry>, i: nat, bin: Entry -> Bin)
    requires i < |es|
    ensures forall b ::
      Filed(es[..i + 1], bin, b) == Filed(es[..i], bin, b) + (if bin(es[i]) == b then [es[i].name] else [])
  {
    assert es[..i + 1][..i] == es[..i];
  }

  /** `check_images_folder`, with the folder's existence, its entries and the
      outcome of decoding each file given as inputs. */
  method CheckImagesFolder(folderExists: bool, entries: seq<Entry>, decodes: string -> bool)
    returns (report: Report)
    ensures report.FolderMissing? <==> !folderExists
    ensures report.Checked? ==>
      && report.valid == Filed(entries, Classify(decodes), Decoded)
      && report.invalid == Filed(entries, Classify(decodes), Corrupt)
      && report.unsupported == Filed(entries, Classify(decodes), Unsupported)
      && (report.fewImages <==> |report.valid| < LowCountThreshold)
  {
    if !folderExists {
      return FolderMissing;
    }
    var valid, invalid, unsupported := [], [], [];
    var i := 0;
    while i < |entries|
      invariant 0 <= i <= |entries|
      invariant valid == Filed(entries[..i], Classify(decodes), Decoded)
      invariant invalid == Filed(entries[..i], Classify(decodes), Corrupt)
      invariant unsupported == Filed(entries[..i], Classify(decodes), Unsupported)
    {
      var entry := entries[i];
      if entry.isFile {
        var ext := Lower(Suffix(entry.name));
        if ext in SupportedExtensions {
          if decodes(entry.name) {
            valid := valid + [entry.name];
          } else {
            invalid := invalid + [entry.name];
          }
        } else if ext != [] {
          unsupported := unsupported + [entry.name];
        }
      }
      FiledStep(entries, i, Classify(decodes));
      i := i + 1;
    }
    assert entries[..i] == entries;
    report := Checked(valid, invalid, unsupported, |valid| < LowCountThreshold);
  }

  /** The positions of the entries filed in bin `b`, in iteration order. */
  function Positions(es: seq<Entry>, bin: Entry -> Bin, b: Bin): (picks: seq<nat>)
    ensures |picks| == |Filed(es, bin, b)|
    ensures forall k :: 0 <= k < |picks| ==> picks[k] < |es|
  {
    if es == [] then []
    else
      var n := |es| - 1;
      Positions(es[..n], bin, b) + (if bin(es[n]) == b then [n] else [])
  }

  /** Each position holds an entry of bin `b`, whose name is the one listed. */
  lemma {:induction false} PositionsNamed(es: seq<Entry>, bin: Entry -> Bin, b: Bin)
    ensures forall k :: 0 <= k < |Positions(es, bin, b)| ==>
      var i := Positions(es, bin, b)[k];
      bin(es[i]) == b && Filed(es, bin, b)[k] == es[i].name
  {
    if es != [] {
      var n := |es| - 1;
      PositionsNamed(es[..n], bin, b);
      assert forall i :: 0 <= i < n ==> es[..n][i] == es[i];
    }
  }

  /** Positions strictly increase. */
  lemma {:induction false} PositionsIncrease(es: seq<Entry>, bin: Entry -> Bin, b: Bin)
    ensures forall k :: 0 < k < |Positions(es, bin, b)| ==>
      Positions(es, bin, b)[k - 1] < Positions(es, bin, b)[k]
  {
    if es != [] {
      PositionsIncrease(es[..|es| - 1], bin, b);
    }
  }

  /** Every entry of bin `b` has its position listed. */
  lemma {:induction false} PositionsComplete(es: seq<Entry>, bin: Entry -> Bin, b: Bin)
    ensures forall i :: 0 <= i < |es| && bin(es[i]) == b ==> i in Positions(es, bin, b)
  {
    if es != [] {
      var n := |es| - 1;
      var front := es[..n];
      PositionsComplete(front, bin, b);
      var before := Positions(front, bin, b);
      var hit := bin(es[n]) == b;
      assert Positions(es, bin, b) == before + (if hit then [n] else []);
      forall i | 0 <= i < |es| && bin(es[i]) == b
        ensures i in before + (if hit then [n] else [])
      {
        if i < n {
          assert front[i] == es[i];
          assert i in before;
        }
      }
    }
  }

  /** Filing keeps iteration order and misses nothing: the names in bin `b` are
      those of the entries filed there, taken at strictly increasing positions,
      and every entry filed there is taken. */
  lemma FiledInOrder(es: seq<Entry>, bin: Entry -> Bin, b: Bin) returns (picks: seq<nat>)
    ensures |picks| == |Filed(es, bin, b)|
    ensures forall k :: 0 <= k < |picks| ==>
      picks[k] < |es| && bin(es[picks[k]]) == b && Filed(es, bin, b)[k] == es[picks[k]].name
    ensures forall k :: 0 < k < |picks| ==> picks[k - 1] < picks[k]
    ensures forall i :: 0 <= i < |es| && bin(es[i]) == b ==> i in picks
  {
    picks := Positions(es, bin, b);
    PositionsNamed(es, bin, b);
    PositionsIncrease(es, bin, b);
    PositionsComplete(es, bin, b);
  }

  /** Filing is compositional: how the entries of `first` are filed (including
      any that fail to decode) does not change how the later entries are filed. */
  lemma {:induction false} FiledAppend(first: seq<Entry>, rest: seq<Entry>, bin: Entry -> Bin, b: Bin)
    ensures Filed(first + rest, bin, b) == Filed(first, bin, b) + Filed(rest, bin, b)
  {
    if rest == [] {
      assert first + rest == first;
    } else {
      var n := |rest| - 1;
      assert (first + rest)[..|first + rest| - 1] == first + rest[..n];
      FiledAppend(first, rest[..n], bin, b);
    }
  }

  /** Every entry lands in exactly one bin, and the decoded and corrupt lists
      together hold one name per candidate file. */
  lemma {:induction false} FiledCounts(es: seq<Entry>, decodes: string -> bool)
    ensures |Filed(es, Classify(decodes), Decoded)| + |Filed(es, Classify(decodes), Corrupt)| == CandidateCount(es)
    ensures |Filed(es, Classify(decodes), Decoded)| + |Filed(es, Classify(decodes), Corrupt)|
          + |Filed(es, Classify(decodes), Unsupported)| + |Filed(es, Classify(decodes), Ignored)| == |es|
  {
    if es != [] {
      FiledCounts(es[..|es| - 1], decodes);
    }
  }

  /** A file is tried as an image exactly when its lower-cased suffix is one of
      the six supported ones; then it is a valid image if it decodes and an
      invalid one otherwise. */
  lemma FiledMembership(es: seq<Entry>, decodes: string -> bool, i: nat)
    requires i < |es|
    ensures IsCandidate(es[i]) && decodes(es[i].name) ==> es[i].name in Filed(es, Classify(decodes), Decoded)
    ensures IsCandidate(es[i]) && !decodes(es[i].name) ==> es[i].name in Filed(es, Classify(decodes), Corrupt)
    ensures es[i].isFile && Suffix(es[i].name) != [] && !IsCandidate(es[i]) ==>
            es[i].name in Filed(es, Classify(decodes), Unsupported)
  {
    var b := BinOf(es[i], decodes);
    var picks := FiledInOrder(es, Classify(decodes), b);
    var k :| 0 <= k < |picks| && picks[k] == i;
    assert Filed(es, Classify(decodes), b)[k] == es[i].name;
  }

  /** The checker and the quiz agree on ".png" files in one direction only: a
      file the checker files under the ".png" suffix is one the quiz asks about. */
  lemma PngSuffixIsQuizzed(name: string)
    requires Lower(Suffix(name)) == ".png"
    ensures IsPngName(name)
  {
    var ext := Suffix(name);
    assert name == name[..|name| - |ext|] + ext;
    LowerAppend(name[..|name| - |ext|], ext);
  }

  /** ... and not in the other: the quiz asks about a file named ".png", which
      the checker ignores because its only dot is its first character. */
  lemma DotPngOnlyQuizzed(e: Entry, decodes: string -> bool)
    requires e == Entry(".png", true)
    ensures IsPngName(e.name)
    ensures BinOf(e, decodes) == Ignored
  {
    assert Lower(e.name) == e.name;
    assert RFind(e.name, '.') == 0;
  }
}
