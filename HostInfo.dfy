/** The three records the OS utilities return, and the NVIDIA-adapter test on a video card. */
module HostInfo {
  import opened Wrappers
  import AsciiText

  /** Vendor and model of the machine. The source's struct default leaves both
      strings null, which is `None` here. */
  datatype MachineInformation = MachineInformation(vendor: Option<string>, model: Option<string>)

  /** The value `default(MachineInformation)` of the source: no field set. */
  const DefaultMachineInformation := MachineInformation(None, None)

  /** One video controller as the platform inventory reports it. */
  datatype VideoCardInformation = VideoCardInformation(manufacturer: string, pnpDeviceId: string)

  /** What the GPU diagnostics report says about the (first) NVIDIA GPU. */
  datatype NVidiaInformation = NVidiaInformation(displayActive: bool, processCount: nat, processNames: seq<string>)

  const NVidiaName := "nvidia"

  /** The card is an NVIDIA adapter: its manufacturer contains "nvidia" in any letter case. */
  function IsNVidia(card: VideoCardInformation): (b: bool)
    ensures b <==> exists i :: AsciiText.FoldsTo(card.manufacturer, NVidiaName, i)
  {
    var b := AsciiText.ContainsIgnoringCase(card.manufacturer, NVidiaName);
    FoldedOccurrence(card.manufacturer);
    b
  }

  /** An ignoring-case occurrence of "nvidia" is a window that folds to "nvidia". */
  lemma FoldedOccurrence(s: string)
    ensures (exists i :: AsciiText.MatchesAt(s, NVidiaName, i)) <==>
            (exists i :: AsciiText.FoldsTo(s, NVidiaName, i))
  {
    assert AsciiText.Fold(NVidiaName) == NVidiaName;
    if i :| AsciiText.MatchesAt(s, NVidiaName, i) {
      AsciiText.MatchesAtFolded(s, NVidiaName, i);
    }
    if i :| AsciiText.FoldsTo(s, NVidiaName, i) {
      AsciiText.MatchesAtFolded(s, NVidiaName, i);
    }
  }

  /** Changing the letter case of the manufacturer never changes the verdict. */
  lemma IsNVidiaIgnoresCase(a: VideoCardInformation, b: VideoCardInformation)
    requires AsciiText.SameIgnoringCase(a.manufacturer, b.manufacturer)
    ensures IsNVidia(a) == IsNVidia(b)
  {
    AsciiText.ContainsIgnoresCase(a.manufacturer, b.manufacturer, NVidiaName);
  }

  /** A manufacturer in which no letter folds to 'v' is never NVIDIA. */
  lemma NotNVidiaWithoutV(card: VideoCardInformation)
    requires forall j :: 0 <= j < |card.manufacturer| ==> AsciiText.ToLower(card.manufacturer[j]) != 'v'
    ensures !IsNVidia(card)
  {
    AsciiText.NoFoldWithoutLetter(card.manufacturer, NVidiaName, 1);
  }

  /** The adapters the toolkit meets: NVIDIA in any casing, and others that are not NVIDIA. */
  lemma IsNVidiaExamples()
    ensures IsNVidia(VideoCardInformation("NVIDIA", ""))
    ensures IsNVidia(VideoCardInformation("NvIdIa Corporation", ""))
    ensures !IsNVidia(VideoCardInformation("Intel Corporation", ""))
    ensures !IsNVidia(VideoCardInformation("NVIDI", ""))
  {
    assert AsciiText.FoldsTo("NVIDIA", NVidiaName, 0);
    assert AsciiText.FoldsTo("NvIdIa Corporation", NVidiaName, 0);
    NotNVidiaWithoutV(VideoCardInformation("Intel Corporation", ""));
  }
}
