/**
 * getTriggers: reading the list of trusted devices. The text of the list file is a
 * parameter; every fatal error of the program becomes an error result.
 */
module TrustList {
  import opened Outcomes
  import opened GoText
  import opened Device

  /** The three fatal errors a malformed kept line causes. */
  datatype ParseError =
    | IllegalEntry  // the line does not split into exactly three ':'-separated fields
    | BadVendorId   // the first field is not a 16-bit hexadecimal number
    | BadDeviceId   // the second field is not a 16-bit hexadecimal number

  /** A line the list reader skips: empty, or starting with '#'. */
  predicate Skipped(line: string)
  {
    |line| == 0 || line[0] == '#'
  }

  /** A kept line as the triplet it declares, or the fatal error it causes. */
  function ParseEntry(line: string): (r: Result<Triplet, ParseError>)
    // a line without exactly two ':' is an illegal entry, checked before the numbers
    ensures r == Err(IllegalEntry) <==> Count(line, ':') != 2
    // the vendor id is checked before the product id
    ensures r == Err(BadVendorId) <==> Count(line, ':') == 2 && ParseHex16(Split(line, ':')[0]).None?
    // the product id is checked last
    ensures r == Err(BadDeviceId) <==>
      Count(line, ':') == 2 && ParseHex16(Split(line, ':')[0]).Some? && ParseHex16(Split(line, ':')[1]).None?
    ensures r.Ok? ==> var fields := Split(line, ':');
      && ParseHex16(fields[0]) == Some(r.value.vendorId)
      && ParseHex16(fields[1]) == Some(r.value.productId)
      && r.value.b64Serial == fields[2] && ':' !in r.value.b64Serial
  {
    var fields := Split(line, ':');
    if |fields| != 3 then Err(IllegalEntry)
    else
      match ParseHex16(fields[0])
      case None => Err(BadVendorId)
      case Some(vendorId) =>
        match ParseHex16(fields[1])
        case None => Err(BadDeviceId)
        case Some(deviceId) => Ok(Triplet(vendorId, deviceId, fields[2]))
  }

  /** Every kept line of the list is a well-formed entry. */
  predicate WellFormed(lines: seq<string>)
  {
    forall i | 0 <= i < |lines| && !Skipped(lines[i]) :: ParseEntry(lines[i]).Ok?
  }

  /**
   * The trust map the lines give when read in order: each kept line's triplet maps to
   * false, and the first malformed kept line aborts the whole reading.
   */
  function ParseLines(lines: seq<string>): (r: Result<map<Triplet, bool>, ParseError>)
    ensures r.Ok? <==> WellFormed(lines)
    ensures r.Ok? ==> forall t | t in r.value :: !r.value[t]  // nothing is seen before the first cycle
    decreases |lines|
  {
    if |lines| == 0 then Ok(map[])
    else
      match ParseLines(lines[..|lines| - 1])
      case Err(e) => Err(e)
      case Ok(m) =>
        var line := lines[|lines| - 1];
        if Skipped(line) then Ok(m)
        else
          match ParseEntry(line)
          case Err(e) => Err(e)
          case Ok(t) => Ok(m[t := false])
  }

  /** The trust map of the text of a list file, read line by line. */
  function ParseTriggers(content: string): (r: Result<map<Triplet, bool>, ParseError>)
    ensures r.Ok? <==> WellFormed(Split(content, '\n'))
    ensures r.Ok? ==> forall t | t in r.value :: !r.value[t]
  {
    ParseLines(Split(content, '\n'))
  }

  /** getTriggers: fills the map line by line, stopping at the first fatal error. */
  method GetTriggers(content: string) returns (r: Result<map<Triplet, bool>, ParseError>)
    ensures r == ParseTriggers(content)
  {
    var triggers: map<Triplet, bool> := map[];
    var lines := Split(content, '\n');
    for i := 0 to |lines|
      invariant ParseLines(lines[..i]) == Ok(triggers)
    {
      var x := lines[i];
      assert lines[..i + 1][..i] == lines[..i];
      if |x| == 0 || x[0] == '#' {
        continue;
      }
      var splited := Split(x, ':');
      if |splited| != 3 {
        ErrorPersists(lines, i + 1);
        return Err(IllegalEntry);
      }
      var vendorId := ParseHex16(splited[0]);
      if vendorId.None? {
        ErrorPersists(lines, i + 1);
        return Err(BadVendorId);
      }
      var deviceId := ParseHex16(splited[1]);
      if deviceId.None? {
        ErrorPersists(lines, i + 1);
        return Err(BadDeviceId);
      }
      triggers := triggers[Triplet(vendorId.value, deviceId.value, splited[2]) := false];
    }
    assert lines[..|lines|] == lines;
    return Ok(triggers);
  }

  /** Once a prefix of the lines fails, reading more lines keeps that error. */
  lemma {:induction false} ErrorPersists(lines: seq<string>, n: nat)
    requires n <= |lines| && ParseLines(lines[..n]).Err?
    ensures ParseLines(lines) == ParseLines(lines[..n])
    decreases |lines| - n
  {
    if n < |lines| {
      var next := lines[..n + 1];
      assert next[..n] == lines[..n];
      ErrorPersists(lines, n + 1);
    } else {
      assert lines[..n] == lines;
    }
  }

  /** The lines that are not skipped, in order. */
  function Kept(lines: seq<string>): (r: seq<string>)
    ensures forall l | l in r :: l in lines && !Skipped(l)
    decreases |lines|
  {
    if |lines| == 0 then []
    else if Skipped(lines[|lines| - 1]) then Kept(lines[..|lines| - 1])
    else Kept(lines[..|lines| - 1]) + [lines[|lines| - 1]]
  }

  /** Empty lines and comment lines, wherever they stand, add nothing and remove nothing. */
  lemma {:induction false} SkippedLinesIgnored(lines: seq<string>)
    ensures ParseLines(lines) == ParseLines(Kept(lines))
    decreases |lines|
  {
    if |lines| > 0 {
      var init := lines[..|lines| - 1];
      var last := lines[|lines| - 1];
      SkippedLinesIgnored(init);
      if !Skipped(last) {
        var k := Kept(init) + [last];
        assert k[..|k| - 1] == Kept(init);
      }
    }
  }

  /** The triplets of the kept lines that parse. */
  function Entries(lines: seq<string>): set<Triplet>
  {
    set i | 0 <= i < |lines| && !Skipped(lines[i]) && ParseEntry(lines[i]).Ok? :: ParseEntry(lines[i]).value
  }

  /** A successful reading has exactly the kept lines' triplets as keys, repeated ones collapsed. */
  lemma {:induction false} ParseLinesKeys(lines: seq<string>)
    ensures ParseLines(lines).Ok? ==> ParseLines(lines).value.Keys == Entries(lines)
    decreases |lines|
  {
    if |lines| > 0 && ParseLines(lines).Ok? {
      var n := |lines| - 1;
      var init := lines[..n];
      ParseLinesKeys(init);
      assert forall i | 0 <= i < n :: init[i] == lines[i];
      assert Entries(lines) == Entries(init) + (if Skipped(lines[n]) then {} else {ParseEntry(lines[n]).value});
    }
  }

  /** The first malformed kept line decides the error that is reported. */
  lemma {:induction false} FirstErrorReported(lines: seq<string>, i: nat)
    requires i < |lines| && !Skipped(lines[i]) && ParseEntry(lines[i]).Err?
    requires forall j | 0 <= j < i && !Skipped(lines[j]) :: ParseEntry(lines[j]).Ok?
    ensures ParseLines(lines) == Err(ParseEntry(lines[i]).error)
  {
    var prefix := lines[..i];
    assert forall j | 0 <= j < i :: prefix[j] == lines[j];
    ParseLinesKeys(prefix);
    var upto := lines[..i + 1];
    assert upto[..i] == prefix;
    ErrorPersists(lines, i + 1);
  }

  /** One line of the list as the enrolment writes it: "%x:%x:%s". */
  function FormatLine(t: Triplet): string
  {
    FormatHex(t.vendorId as nat) + ":" + FormatHex(t.productId as nat) + ":" + t.b64Serial
  }

  /** A written line splits on ':' into the two hexadecimal IDs and the serial. */
  lemma FormatLineFields(t: Triplet)
    requires ':' !in t.b64Serial
    ensures Split(FormatLine(t), ':') == [FormatHex(t.vendorId as nat), FormatHex(t.productId as nat), t.b64Serial]
  {
    var v, p := FormatHex(t.vendorId as nat), FormatHex(t.productId as nat);
    assert ':' !in v && ':' !in p;
    SplitThree(v, p, t.b64Serial, ':');
  }

  /** A line written for an attached device reads back as that device's triplet. */
  lemma FormatLineParses(d: DeviceInfo)
    ensures !Skipped(FormatLine(ToDeviceTriplet(d)))
    ensures ParseEntry(FormatLine(ToDeviceTriplet(d))) == Ok(ToDeviceTriplet(d))
  {
    var t := ToDeviceTriplet(d);
    FormatLineFields(t);
    ParseFormatHex(t.vendorId);
    ParseFormatHex(t.productId);
    assert FormatLine(t)[0] == FormatHex(t.vendorId as nat)[0];
  }

  /** The text of a list file that holds one written line per device. */
  function ListFile(devices: seq<DeviceInfo>): string
  {
    if |devices| == 0 then "" else FormatLine(ToDeviceTriplet(devices[0])) + "\n" + ListFile(devices[1..])
  }

  /** A written line never holds a line break. */
  lemma LineUnbroken(d: DeviceInfo)
    ensures '\n' !in FormatLine(ToDeviceTriplet(d))
  {
    var t := ToDeviceTriplet(d);
    var v, p := FormatHex(t.vendorId as nat), FormatHex(t.productId as nat);
    assert '\n' !in v && '\n' !in p && '\n' !in t.b64Serial;
    assert FormatLine(t) == v + ":" + p + ":" + t.b64Serial;
  }

  /** The written lines of some devices, in order. */
  function WrittenLines(devices: seq<DeviceInfo>): seq<string>
  {
    seq(|devices|, i requires 0 <= i < |devices| => FormatLine(ToDeviceTriplet(devices[i])))
  }

  /** The written lines of a non-empty device list: the first device's line, then the rest. */
  lemma WrittenLinesCons(devices: seq<DeviceInfo>)
    requires |devices| > 0
    ensures WrittenLines(devices) + [""] == [FormatLine(ToDeviceTriplet(devices[0]))] + (WrittenLines(devices[1..]) + [""])
  {
    assert WrittenLines(devices) == [FormatLine(ToDeviceTriplet(devices[0]))] + WrittenLines(devices[1..]);
  }

  /** The lines of such a file: one per device, then the empty text after the final newline. */
  lemma {:induction false} ListFileLines(devices: seq<DeviceInfo>)
    ensures Split(ListFile(devices), '\n') == WrittenLines(devices) + [""]
  {
    if |devices| > 0 {
      var line := FormatLine(ToDeviceTriplet(devices[0]));
      LineUnbroken(devices[0]);
      SplitCons(line, '\n', ListFile(devices[1..]));
      ListFileLines(devices[1..]);
      WrittenLinesCons(devices);
    }
  }

  /** Every line of a written file is kept and parses, and together they declare the devices. */
  lemma WrittenLinesParse(devices: seq<DeviceInfo>)
    ensures var lines := Split(ListFile(devices), '\n');
      && WellFormed(lines)
      && Entries(lines) == Triplets(devices)
  {
    var lines := Split(ListFile(devices), '\n');
    ListFileLines(devices);
    assert |lines| == |devices| + 1 && Skipped(lines[|devices|]);
    forall i | 0 <= i < |devices|
      ensures !Skipped(lines[i]) && ParseEntry(lines[i]) == Ok(ToDeviceTriplet(devices[i]))
    {
      FormatLineParses(devices[i]);
    }
    forall t | t in Entries(lines) ensures t in Triplets(devices) {
      var i :| 0 <= i < |lines| && !Skipped(lines[i]) && ParseEntry(lines[i]).Ok? && ParseEntry(lines[i]).value == t;
      assert devices[i] in devices;
    }
    forall t | t in Triplets(devices) ensures t in Entries(lines) {
      var i :| 0 <= i < |devices| && ToDeviceTriplet(devices[i]) == t;
      assert ParseEntry(lines[i]).value == t;
    }
  }

  /** A successful reading is the map from the kept lines' triplets to false. */
  lemma ParseLinesMap(lines: seq<string>)
    requires ParseLines(lines).Ok?
    ensures ParseLines(lines).value == map t | t in Entries(lines) :: false
  {
    ParseLinesKeys(lines);
  }

  /** The identities of some attached devices. */
  function Triplets(devices: seq<DeviceInfo>): set<Triplet>
  {
    set d | d in devices :: ToDeviceTriplet(d)
  }

  /**
   * A list file written for some attached devices reads back as exactly their triplets,
   * each not yet seen.
   */
  lemma ListFileRoundTrip(devices: seq<DeviceInfo>)
    ensures ParseTriggers(ListFile(devices)) == Ok(map t | t in Triplets(devices) :: false)
  {
    var lines := Split(ListFile(devices), '\n');
    WrittenLinesParse(devices);
    assert Entries(lines) == Triplets(devices);
    ParseLinesKeys(lines);
    assert ParseLines(lines).Ok?;
    ParseLinesMap(lines);
    assert ParseLines(lines) == Ok(map t | t in Entries(lines) :: false);
  }
}
