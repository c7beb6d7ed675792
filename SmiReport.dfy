/** Reading the XML report of `nvidia-smi -q -x` once it has been parsed into an element tree. */
module SmiReport {
  import opened Wrappers
  import opened HostInfo
  import FilePath

  /** A parsed XML element: its name, its string value (the text an
      XElement's Value gives) and its child elements in document order. */
  datatype Element = Element(name: string, text: string, children: seq<Element>)

  /** Index of the first element called `name`, or |elements| when there is none. */
  function FirstIndexNamed(elements: seq<Element>, name: string): (k: nat)
    ensures k <= |elements|
    ensures forall j :: 0 <= j < k ==> elements[j].name != name
    ensures k < |elements| ==> elements[k].name == name
  {
    if elements == [] then 0
    else if elements[0].name == name then 0
    else 1 + FirstIndexNamed(elements[1..], name)
  }

  /** XDocument.Element(name): the root element when its name matches, null (a failure) otherwise. */
  function Root(doc: Element, name: string): (r: Result<Element>)
    ensures r.Success? <==> doc.name == name
    ensures r.Success? ==> r.value == doc
    ensures r.Failure? ==> r.missing == name
  {
    if doc.name == name then Success(doc) else Failure(name)
  }

  /** `parent` has at least one child called `name`. */
  predicate HasChild(parent: Element, name: string) {
    exists j :: 0 <= j < |parent.children| && parent.children[j].name == name
  }

  /** XContainer.Element(name): the first child called `name`, null (a failure) when there is none. */
  function Child(parent: Element, name: string): (r: Result<Element>)
    ensures r.Success? <==> HasChild(parent, name)
    ensures r.Success? ==> r.value in parent.children && r.value.name == name
    ensures r.Failure? ==> r.missing == name
  {
    var k := FirstIndexNamed(parent.children, name);
    if k < |parent.children| then Success(parent.children[k]) else Failure(name)
  }

  /** The child Child finds is the first one with that name. */
  lemma ChildIsFirst(parent: Element, name: string, k: nat)
    requires k < |parent.children| && parent.children[k].name == name
    requires forall j :: 0 <= j < k ==> parent.children[j].name != name
    ensures Child(parent, name) == Success(parent.children[k])
  {
    var f := FirstIndexNamed(parent.children, name);
    assert !(f < k) && !(k < f);
  }

  /** XContainer.Elements(name): every element called `name`, in document order. */
  function ElementsNamed(elements: seq<Element>, name: string): (r: seq<Element>)
    ensures |r| <= |elements|
    ensures forall e :: e in r <==> e in elements && e.name == name
  {
    if elements == [] then []
    else if elements[0].name == name then [elements[0]] + ElementsNamed(elements[1..], name)
    else ElementsNamed(elements[1..], name)
  }

  /** Selection keeps document order: the selection of a concatenation is the
      concatenation of the selections. */
  lemma {:induction false} ElementsNamedAppend(a: seq<Element>, b: seq<Element>, name: string)
    ensures ElementsNamed(a + b, name) == ElementsNamed(a, name) + ElementsNamed(b, name)
    decreases |a|
  {
    if a != [] {
      assert (a + b)[1..] == a[1..] + b;
      ElementsNamedAppend(a[1..], b, name);
    } else {
      assert a + b == b;
    }
  }

  /** The `process_name` value of each `process_info` entry, in order; a
      failure at the first entry without `process_name`. */
  function ProcessNameValues(infos: seq<Element>): (r: Result<seq<string>>)
    ensures r.Success? <==> forall i :: 0 <= i < |infos| ==> HasChild(infos[i], "process_name")
    ensures r.Success? ==> |r.value| == |infos|
    ensures r.Success? ==> forall i :: 0 <= i < |infos| ==>
      r.value[i] == Child(infos[i], "process_name").value.text
    ensures r.Failure? ==> r.missing == "process_name"
  {
    if infos == [] then Success([])
    else
      match Child(infos[0], "process_name")
      case Failure(missing) => Failure(missing)
      case Success(first) =>
        match ProcessNameValues(infos[1..])
        case Failure(missing) =>
          AllNamedTail(infos);
          Failure(missing)
        case Success(rest) =>
          NameValuesCons(infos, first, rest);
          Success([first.text] + rest)
  }

  /** If every entry has a `process_name`, so does every entry of the tail. */
  lemma AllNamedTail(infos: seq<Element>)
    requires infos != []
    ensures (forall i :: 0 <= i < |infos| ==> HasChild(infos[i], "process_name")) ==>
      forall i :: 0 <= i < |infos[1..]| ==> HasChild(infos[1..][i], "process_name")
  {
    if forall i :: 0 <= i < |infos| ==> HasChild(infos[i], "process_name") {
      forall i | 0 <= i < |infos[1..]| ensures HasChild(infos[1..][i], "process_name") {
        assert infos[1..][i] == infos[i + 1];
      }
    }
  }

  /** The values of the head entry followed by those of the tail are the
      values of the whole list. */
  lemma NameValuesCons(infos: seq<Element>, first: Element, rest: seq<string>)
    requires infos != [] && Child(infos[0], "process_name") == Success(first)
    requires |rest| == |infos[1..]|
    requires forall i :: 0 <= i < |infos[1..]| ==> HasChild(infos[1..][i], "process_name")
    requires forall i :: 0 <= i < |infos[1..]| ==> rest[i] == Child(infos[1..][i], "process_name").value.text
    ensures forall i :: 0 <= i < |infos| ==> HasChild(infos[i], "process_name")
    ensures forall i :: 0 <= i < |infos| ==>
      ([first.text] + rest)[i] == Child(infos[i], "process_name").value.text
  {
    forall i | 0 < i < |infos|
      ensures HasChild(infos[i], "process_name")
      ensures ([first.text] + rest)[i] == Child(infos[i], "process_name").value.text
    {
      assert infos[i] == infos[1..][i - 1];
    }
  }

  /** Path.GetFileName applied to each value, order kept. */
  function FileNames(paths: seq<string>): (names: seq<string>)
    ensures |names| == |paths|
    ensures forall i :: 0 <= i < |paths| ==> names[i] == FilePath.FileName(paths[i])
  {
    seq(|paths|, i requires 0 <= i < |paths| => FilePath.FileName(paths[i]))
  }

  /** The `process_info` entries of the `processes` element. */
  function ProcessEntries(processes: Element): seq<Element> {
    ElementsNamed(processes.children, "process_info")
  }

  /** GetNVidiaInformation after the report has been parsed: follows
      nvidia_smi_log/gpu to display_active and processes/process_info, failing
      at the first lookup that gives null. */
  function ExtractNVidiaInformation(doc: Element): (r: Result<NVidiaInformation>)
    ensures r.Success? ==> r.value.processCount == |r.value.processNames|
    ensures r.Failure? ==> r.missing in {"nvidia_smi_log", "gpu", "display_active", "processes", "process_name"}
  {
    var log :- Root(doc, "nvidia_smi_log");
    var gpu :- Child(log, "gpu");
    var display :- Child(gpu, "display_active");
    var processes :- Child(gpu, "processes");
    var infos := ProcessEntries(processes);
    var values :- ProcessNameValues(infos);
    Success(NVidiaInformation(display.text == "Enabled", |infos|, FileNames(values)))
  }

  /** When the report has its gpu, display_active and processes elements, the
      extraction succeeds exactly when every entry has a process_name, and then
      reads the flag, the count and the names from them. */
  lemma ExtractionReadsReport(doc: Element, gpu: Element, display: Element, processes: Element)
    requires doc.name == "nvidia_smi_log"
    requires Child(doc, "gpu") == Success(gpu)
    requires Child(gpu, "display_active") == Success(display)
    requires Child(gpu, "processes") == Success(processes)
    ensures var r := ExtractNVidiaInformation(doc); var infos := ProcessEntries(processes);
      && (r.Success? <==> forall i :: 0 <= i < |infos| ==> HasChild(infos[i], "process_name"))
      && (r.Success? ==>
            && (r.value.displayActive <==> display.text == "Enabled")
            && r.value.processCount == |infos|
            && |r.value.processNames| == |infos|
            && forall i :: 0 <= i < |infos| ==>
                 r.value.processNames[i] == FilePath.FileName(Child(infos[i], "process_name").value.text))
  {
  }

  /** Every extracted name is a separator-free suffix of its process_name, the
      whole of it when that has no separator, and a fixed point of FileName. */
  lemma ExtractedNamesAreFileNames(doc: Element, gpu: Element, display: Element, processes: Element,
                                   info: NVidiaInformation, i: nat)
    requires doc.name == "nvidia_smi_log"
    requires Child(doc, "gpu") == Success(gpu)
    requires Child(gpu, "display_active") == Success(display)
    requires Child(gpu, "processes") == Success(processes)
    requires ExtractNVidiaInformation(doc) == Success(info)
    requires i < |ProcessEntries(processes)|
    ensures i < |info.processNames|
    ensures HasChild(ProcessEntries(processes)[i], "process_name")
    ensures var name := info.processNames[i];
      var original := Child(ProcessEntries(processes)[i], "process_name").value.text;
      && FilePath.HasNoSeparator(name)
      && FilePath.IsSuffix(name, original)
      && (FilePath.HasNoSeparator(original) ==> name == original)
      && FilePath.FileName(name) == name
  {
    ExtractedNameAt(doc, gpu, display, processes, info, i);
    FilePath.FileNameFactsOf(info.processNames[i], Child(ProcessEntries(processes)[i], "process_name").value.text);
  }

  /** Name i of a successful extraction is the file name of entry i's
      process_name: the one conjunct of ExtractionReadsReport that
      ExtractedNamesAreFileNames needs, isolated as a proof aid. */
  lemma ExtractedNameAt(doc: Element, gpu: Element, display: Element, processes: Element,
                        info: NVidiaInformation, i: nat)
    requires doc.name == "nvidia_smi_log"
    requires Child(doc, "gpu") == Success(gpu)
    requires Child(gpu, "display_active") == Success(display)
    requires Child(gpu, "processes") == Success(processes)
    requires ExtractNVidiaInformation(doc) == Success(info)
    requires i < |ProcessEntries(processes)|
    ensures i < |info.processNames|
    ensures HasChild(ProcessEntries(processes)[i], "process_name")
    ensures info.processNames[i] == FilePath.FileName(Child(ProcessEntries(processes)[i], "process_name").value.text)
  {
    ExtractionReadsReport(doc, gpu, display, processes);
  }

  /** Each missing element on the path makes the extraction fail, naming it. */
  lemma MissingLogFails(doc: Element)
    requires doc.name != "nvidia_smi_log"
    ensures ExtractNVidiaInformation(doc) == Failure("nvidia_smi_log")
  {
  }

  lemma MissingGpuFails(doc: Element)
    requires doc.name == "nvidia_smi_log"
    requires !HasChild(doc, "gpu")
    ensures ExtractNVidiaInformation(doc) == Failure("gpu")
  {
  }

  lemma MissingDisplayActiveFails(doc: Element, gpu: Element)
    requires doc.name == "nvidia_smi_log" && Child(doc, "gpu") == Success(gpu)
    requires !HasChild(gpu, "display_active")
    ensures ExtractNVidiaInformation(doc) == Failure("display_active")
  {
  }

  lemma MissingProcessesFails(doc: Element, gpu: Element)
    requires doc.name == "nvidia_smi_log" && Child(doc, "gpu") == Success(gpu)
    requires Child(gpu, "display_active").Success?
    requires !HasChild(gpu, "processes")
    ensures ExtractNVidiaInformation(doc) == Failure("processes")
  {
  }

  lemma MissingProcessNameFails(doc: Element, gpu: Element, processes: Element, i: nat)
    requires doc.name == "nvidia_smi_log" && Child(doc, "gpu") == Success(gpu)
    requires Child(gpu, "display_active").Success?
    requires Child(gpu, "processes") == Success(processes)
    requires i < |ProcessEntries(processes)|
    requires !HasChild(ProcessEntries(processes)[i], "process_name")
    ensures ExtractNVidiaInformation(doc) == Failure("process_name")
  {
  }

  function Leaf(name: string, text: string): Element {
    Element(name, text, [])
  }

  function ProcessInfo(path: string): Element {
    Element("process_info", "", [Leaf("pid", "1"), Leaf("process_name", path)])
  }

  function Report(displayActive: string, infos: seq<Element>): Element {
    Element("nvidia_smi_log", "", [
      Leaf("driver_version", "531.41"),
      Element("gpu", "", [
        Leaf("display_active", displayActive),
        Element("processes", "", infos)
      ])
    ])
  }

  /** Navigation in a report built by Report finds its gpu, display_active and processes. */
  lemma ReportNavigation(displayActive: string, infos: seq<Element>)
    ensures var doc := Report(displayActive, infos); var gpu := doc.children[1];
      && Child(doc, "gpu") == Success(gpu)
      && Child(gpu, "display_active") == Success(Leaf("display_active", displayActive))
      && Child(gpu, "processes") == Success(Element("processes", "", infos))
  {
    var doc := Report(displayActive, infos);
    var gpu := doc.children[1];
    ChildIsFirst(doc, "gpu", 1);
    ChildIsFirst(gpu, "display_active", 0);
    ChildIsFirst(gpu, "processes", 1);
  }

  /** One process_info entry per path. */
  function ProcessInfos(paths: seq<string>): (infos: seq<Element>)
    ensures |infos| == |paths|
    ensures forall i :: 0 <= i < |paths| ==> infos[i] == ProcessInfo(paths[i])
  {
    seq(|paths|, i requires 0 <= i < |paths| => ProcessInfo(paths[i]))
  }

  /** Selecting by a name every element carries keeps them all. */
  lemma {:induction false} ElementsNamedAll(elements: seq<Element>, name: string)
    requires forall i :: 0 <= i < |elements| ==> elements[i].name == name
    ensures ElementsNamed(elements, name) == elements
    decreases |elements|
  {
    if elements != [] {
      ElementsNamedAll(elements[1..], name);
    }
  }

  /** A well-formed report yields its display flag, its entry count and the
      file names of its paths. */
  lemma ExtractionOfReport(displayActive: string, paths: seq<string>)
    ensures ExtractNVidiaInformation(Report(displayActive, ProcessInfos(paths)))
      == Success(NVidiaInformation(displayActive == "Enabled", |paths|, FileNames(paths)))
  {
    var infos := ProcessInfos(paths);
    var doc := Report(displayActive, infos);
    var processes := Element("processes", "", infos);
    ReportNavigation(displayActive, infos);
    ElementsNamedAll(infos, "process_info");
    forall i | 0 <= i < |infos| ensures Child(infos[i], "process_name") == Success(Leaf("process_name", paths[i])) {
      ChildIsFirst(infos[i], "process_name", 1);
    }
    var values := ProcessNameValues(infos);
    assert values.Success?;
    assert values.value == paths;
  }

  /** FileNames keeps the order of its input. */
  lemma FileNamesExample()
    ensures FileNames(["C:\\Windows\\System32\\foo.exe", "/usr/bin/Xorg"]) == ["foo.exe", "Xorg"]
  {
    FilePath.FileNameExampleWindows();
    FilePath.FileNameExampleUnix();
    var names := FileNames(["C:\\Windows\\System32\\foo.exe", "/usr/bin/Xorg"]);
    assert names[0] == "foo.exe" && names[1] == "Xorg";
  }

  /** Two processes reported by full path: their file names, in order. */
  lemma ExtractionExampleFullPaths()
    ensures ExtractNVidiaInformation(Report("Enabled", ProcessInfos(["C:\\Windows\\System32\\foo.exe", "/usr/bin/Xorg"])))
      == Success(NVidiaInformation(true, 2, ["foo.exe", "Xorg"]))
  {
    FileNamesExample();
    ExtractionOfReport("Enabled", ["C:\\Windows\\System32\\foo.exe", "/usr/bin/Xorg"]);
  }

  /** "Disabled", and "enabled" in small letters, both read as an inactive display. */
  lemma ExtractionExampleInactive()
    ensures ExtractNVidiaInformation(Report("Disabled", [])) == Success(NVidiaInformation(false, 0, []))
    ensures ExtractNVidiaInformation(Report("enabled", [])) == Success(NVidiaInformation(false, 0, []))
  {
    ReportNavigation("Disabled", []);
    ReportNavigation("enabled", []);
  }

  /** A report without a gpu element fails at "gpu". */
  lemma ExtractionExampleNoGpu()
    ensures ExtractNVidiaInformation(Element("nvidia_smi_log", "", [Leaf("driver_version", "531.41")])) == Failure("gpu")
  {
    var doc := Element("nvidia_smi_log", "", [Leaf("driver_version", "531.41")]);
    assert !HasChild(doc, "gpu");
  }
}
