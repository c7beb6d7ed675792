/** The platform inventory queries: machine identity and video controllers,
    read from the records a management query returns. */
module Inventory {
  import opened Wrappers
  import opened HostInfo

  /** One management object: property name to string value. A name that is
      absent stands for a property that is missing or null, whose ToString()
      the source would call on null. */
  type Record = map<string, string>

  /** `record[key].ToString()`: the value, or a failure naming the key. */
  function Property(record: Record, key: string): (r: Result<string>)
    ensures r.Success? <==> key in record
    ensures r.Success? ==> r.value == record[key]
    ensures r.Failure? ==> r.missing == key
  {
    if key in record then Success(record[key]) else Failure(key)
  }

  /** Reading one Win32_ComputerSystemProduct record: Vendor, then Version as the model. */
  function MachineOf(record: Record): (r: Result<MachineInformation>)
    ensures r.Success? <==> "Vendor" in record && "Version" in record
    ensures r.Success? ==> r.value == MachineInformation(Some(record["Vendor"]), Some(record["Version"]))
    ensures r.Failure? ==> r.missing == if "Vendor" !in record then "Vendor" else "Version"
  {
    var vendor :- Property(record, "Vendor");
    var model :- Property(record, "Version");
    Success(MachineInformation(Some(vendor), Some(model)))
  }

  /** What GetMachineInformation returns for the given records: the first
      record alone decides, and no record gives the default value. */
  function MachineInformationOf(records: seq<Record>): (r: Result<MachineInformation>)
    ensures r.Success? <==> records == [] || ("Vendor" in records[0] && "Version" in records[0])
    ensures r.Success? && records == [] ==> r.value.vendor.None? && r.value.model.None?
    ensures r.Success? && records != [] ==>
      r.value.vendor == Some(records[0]["Vendor"]) && r.value.model == Some(records[0]["Version"])
    ensures r.Failure? ==> records != [] && r.missing in {"Vendor", "Version"}
  {
    if records == [] then Success(DefaultMachineInformation) else MachineOf(records[0])
  }

  /** The loop of the source: returns from inside its first iteration. */
  method GetMachineInformation(records: seq<Record>) returns (r: Result<MachineInformation>)
    ensures r == MachineInformationOf(records)
  {
    for i := 0 to |records|
      invariant i == 0
    {
      var queryObj := records[i];
      r := MachineOf(queryObj);
      return;
    }
    r := Success(DefaultMachineInformation);
  }

  /** Records after the first never change the answer. */
  lemma {:induction false} LaterRecordsIgnored(first: Record, later: seq<Record>, other: seq<Record>)
    ensures MachineInformationOf([first] + later) == MachineInformationOf([first] + other)
  {
    assert ([first] + later)[0] == first && ([first] + other)[0] == first;
  }

  /** No record: the default value, with neither field set, and no failure. */
  lemma NoRecordGivesDefault()
    ensures MachineInformationOf([]) == Success(MachineInformation(None, None))
  {
  }

  /** Reading one Win32_VideoController record: AdapterCompatibility as the
      manufacturer, then PNPDeviceID as the device id. */
  function CardOf(record: Record): (r: Result<VideoCardInformation>)
    ensures r.Success? <==> "AdapterCompatibility" in record && "PNPDeviceID" in record
    ensures r.Success? ==> r.value == VideoCardInformation(record["AdapterCompatibility"], record["PNPDeviceID"])
    ensures r.Failure? ==> r.missing == if "AdapterCompatibility" !in record then "AdapterCompatibility" else "PNPDeviceID"
  {
    var manufacturer :- Property(record, "AdapterCompatibility");
    var pnpDeviceId :- Property(record, "PNPDeviceID");
    Success(VideoCardInformation(manufacturer, pnpDeviceId))
  }

  /** What GetVideoControllersInformation yields for the given records: one
      card per record, in record order, or the failure of the first record
      that cannot be read. */
  function VideoControllersOf(records: seq<Record>): (r: Result<seq<VideoCardInformation>>)
    ensures r.Success? <==> forall j :: 0 <= j < |records| ==> CardOf(records[j]).Success?
    ensures r.Success? ==> |r.value| == |records|
    ensures r.Success? ==> forall j :: 0 <= j < |records| ==> CardOf(records[j]) == Success(r.value[j])
    ensures r.Failure? ==> exists j :: 0 <= j < |records| && CardOf(records[j]) == Failure(r.missing) &&
                                      forall k :: 0 <= k < j ==> CardOf(records[k]).Success?
  {
    if records == [] then Success([])
    else
      match CardOf(records[0])
      case Failure(missing) => Failure(missing)
      case Success(card) =>
        match VideoControllersOf(records[1..])
        case Failure(missing) =>
          FirstFailureCons(records, missing);
          Failure(missing)
        case Success(rest) =>
          CardsCons(records, card, rest);
          Success([card] + rest)
  }

  /** A first failing record of the tail, after a head that succeeds, is the
      first failing record of the whole list. */
  lemma FirstFailureCons(records: seq<Record>, missing: string)
    requires records != [] && CardOf(records[0]).Success?
    requires exists j :: 0 <= j < |records[1..]| && CardOf(records[1..][j]) == Failure(missing) &&
                         forall k :: 0 <= k < j ==> CardOf(records[1..][k]).Success?
    ensures exists j :: 0 <= j < |records| && CardOf(records[j]) == Failure(missing) &&
                        forall k :: 0 <= k < j ==> CardOf(records[k]).Success?
  {
    var j :| 0 <= j < |records[1..]| && CardOf(records[1..][j]) == Failure(missing) &&
      forall k :: 0 <= k < j ==> CardOf(records[1..][k]).Success?;
    forall k | 0 < k < j + 1 ensures CardOf(records[k]).Success? {
      assert records[k] == records[1..][k - 1];
    }
    assert CardOf(records[j + 1]) == Failure(missing);
  }

  /** The card of the head followed by the cards of the tail are the cards of
      the whole list. */
  lemma CardsCons(records: seq<Record>, card: VideoCardInformation, rest: seq<VideoCardInformation>)
    requires records != [] && CardOf(records[0]) == Success(card)
    requires |rest| == |records[1..]|
    requires forall j :: 0 <= j < |records[1..]| ==> CardOf(records[1..][j]) == Success(rest[j])
    ensures forall j :: 0 <= j < |records| ==> CardOf(records[j]) == Success(([card] + rest)[j])
  {
    forall j | 0 < j < |records| ensures CardOf(records[j]) == Success(([card] + rest)[j]) {
      assert records[j] == records[1..][j - 1];
    }
  }

  /** The foreach/yield loop of the source, with the sequence materialised. */
  method GetVideoControllersInformation(records: seq<Record>) returns (r: Result<seq<VideoCardInformation>>)
    ensures r == VideoControllersOf(records)
  {
    var cards: seq<VideoCardInformation> := [];
    var i := 0;
    while i < |records|
      invariant 0 <= i <= |records|
      invariant |cards| == i
      invariant forall j :: 0 <= j < i ==> CardOf(records[j]) == Success(cards[j])
    {
      var card := CardOf(records[i]);
      if card.Failure? {
        r := Failure(card.missing);
        ghost var expected := VideoControllersOf(records);
        ghost var j :| 0 <= j < |records| && CardOf(records[j]) == Failure(expected.missing) &&
          forall k :: 0 <= k < j ==> CardOf(records[k]).Success?;
        assert j == i;
        return;
      }
      cards := cards + [card.value];
      i := i + 1;
    }
    r := Success(cards);
    ghost var expected := VideoControllersOf(records);
    assert forall j :: 0 <= j < |records| ==> CardOf(records[j]).Success?;
    assert forall j :: 0 <= j < |records| ==> expected.value[j] == cards[j];
    assert expected.value == cards;
  }

  /** Reading a concatenation of record lists that both succeed gives the
      cards of the first list followed by those of the second. */
  lemma {:induction false} VideoControllersAppend(a: seq<Record>, b: seq<Record>)
    requires VideoControllersOf(a).Success? && VideoControllersOf(b).Success?
    ensures VideoControllersOf(a + b) == Success(VideoControllersOf(a).value + VideoControllersOf(b).value)
  {
    var ab := a + b;
    var cards := VideoControllersOf(a).value + VideoControllersOf(b).value;
    forall j | 0 <= j < |ab| ensures CardOf(ab[j]) == Success(cards[j]) {
      if j < |a| {
        assert ab[j] == a[j];
      } else {
        assert ab[j] == b[j - |a|];
      }
    }
    var whole := VideoControllersOf(ab);
    assert forall j :: 0 <= j < |ab| ==> CardOf(ab[j]).Success?;
    assert forall j :: 0 <= j < |ab| ==> whole.value[j] == cards[j];
    assert whole.value == cards;
  }
}
