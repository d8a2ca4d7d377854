/**
 Parsing undoes printing: a well-formed configuration tree, laid out as section 9.6 of the USB 2.0
 specification lays it out, is what `parse_configuration` rebuilds from its bytes.
 */
module UsbRoundTrip {
  import opened UsbDescriptor

  // ------------------------------------------------------------ well-formed trees and their bytes

  /** The types of table 9-5 of the USB 2.0 specification for devices, configurations, interfaces and endpoints. */
  predicate Standard(bDescriptorType: int) {
    bDescriptorType == 1 || bDescriptorType == 2 || bDescriptorType == 4 || bDescriptorType == 5
  }

  /** A run of whole class or vendor descriptors. */
  ghost predicate Unknowns(extra: seq<Byte>)
    decreases |extra|
  {
    extra == [] ||
    (|extra| >= 2 && 2 <= extra[0] <= |extra| && !Standard(extra[1]) && Unknowns(extra[extra[0]..]))
  }

  ghost predicate GoodEndpoint(e: Endpoint) {
    && e.bDescriptorType == 5 && e.wMaxPacketSize < 65536 && Unknowns(e.extra)
    && (e.bLength == 9 || (e.bLength == 7 && e.bRefresh == 0 && e.bSynchAddress == 0))
  }

  ghost predicate GoodEndpoints(es: seq<Endpoint>) {
    forall i :: 0 <= i < |es| ==> GoodEndpoint(es[i])
  }

  ghost predicate GoodSetting(a: AltSetting) {
    && a.bLength == 9 && a.bDescriptorType == 4 && Unknowns(a.extra)
    && a.bNumEndpoints == |a.endpoints| <= 32 && GoodEndpoints(a.endpoints)
  }

  ghost predicate GoodSettings(alts: seq<AltSetting>) {
    forall i :: 0 <= i < |alts| ==> GoodSetting(alts[i])
  }

  /** The alternate settings of one interface: at least one, all with the same number. */
  ghost predicate GoodInterface(alts: seq<AltSetting>) {
    && alts != [] && GoodSettings(alts)
    && forall i :: 0 <= i < |alts| ==> alts[i].bInterfaceNumber == alts[0].bInterfaceNumber
  }

  ghost predicate AllGood(interfaces: seq<seq<AltSetting>>) {
    forall i :: 0 <= i < |interfaces| ==> GoodInterface(interfaces[i])
  }

  /** Neighbouring interfaces are told apart by their numbers. */
  ghost predicate GoodInterfaces(interfaces: seq<seq<AltSetting>>) {
    && AllGood(interfaces)
    && forall i :: 0 < i < |interfaces| ==>
         interfaces[i - 1][0].bInterfaceNumber != interfaces[i][0].bInterfaceNumber
  }

  ghost predicate GoodConfig(c: Config) {
    && c.bLength == 9 && c.bDescriptorType == 2 && c.wTotalLength < 65536
    && c.bNumInterfaces == |c.interfaces| <= 32
    && GoodInterfaces(c.interfaces)
    && Unknowns(c.extra) && (c.interfaces == [] ==> c.extra == [])
  }

  function PrintWord(w: nat): (bytes: seq<Byte>)
    requires w < 65536
    ensures |bytes| == 2
  {
    [w % 256, w / 256]
  }

  ghost function PrintEndpoint(e: Endpoint): seq<Byte>
    requires GoodEndpoint(e)
  {
    var fields := [e.bLength, e.bDescriptorType, e.bEndpointAddress, e.bmAttributes] +
                  PrintWord(e.wMaxPacketSize) + [e.bInterval];
    fields + (if e.bLength == 9 then [e.bRefresh, e.bSynchAddress] else []) + e.extra
  }

  ghost function PrintEndpoints(es: seq<Endpoint>): seq<Byte>
    requires GoodEndpoints(es)
  {
    if es == [] then [] else PrintEndpoint(es[0]) + PrintEndpoints(es[1..])
  }

  ghost function PrintSetting(a: AltSetting): seq<Byte>
    requires GoodSetting(a)
  {
    [a.bLength, a.bDescriptorType, a.bInterfaceNumber, a.bAlternateSetting, a.bNumEndpoints,
     a.bInterfaceClass, a.bInterfaceSubClass, a.bInterfaceProtocol, a.iInterface] +
    a.extra + PrintEndpoints(a.endpoints)
  }

  ghost function PrintInterface(alts: seq<AltSetting>): seq<Byte>
    requires GoodSettings(alts)
  {
    if alts == [] then [] else PrintSetting(alts[0]) + PrintInterface(alts[1..])
  }

  ghost function PrintInterfaces(interfaces: seq<seq<AltSetting>>): seq<Byte>
    requires AllGood(interfaces)
  {
    if interfaces == [] then [] else PrintInterface(interfaces[0]) + PrintInterfaces(interfaces[1..])
  }

  ghost function PrintConfig(c: Config): seq<Byte>
    requires GoodConfig(c)
  {
    [c.bLength, c.bDescriptorType] + PrintWord(c.wTotalLength) +
    [c.bNumInterfaces, c.bConfigurationValue, c.iConfiguration, c.bmAttributes, c.maxPower] +
    c.extra + PrintInterfaces(c.interfaces)
  }

  // ------------------------------------------------------------ where a scan for unknown descriptors stops

  ghost predicate EndsScan(rest: seq<Byte>) {
    |rest| < 2 || (2 <= rest[0] <= |rest| && Standard(rest[1]))
  }

  lemma {:induction false} ScanStops(extra: seq<Byte>, rest: seq<Byte>)
    requires Unknowns(extra) && EndsScan(rest)
    ensures ScanExtras(extra + rest) == Scan(|extra|, Done)
    decreases |extra|
  {
    if extra == [] {
      assert extra + rest == rest;
    } else {
      ScanStops(extra[extra[0]..], rest);
      assert (extra + rest)[extra[0]..] == extra[extra[0]..] + rest;
    }
  }

  /** Conversely, whatever a scan passes over is a run of whole unknown descriptors. */
  lemma {:induction false} ScanPassesUnknowns(b: seq<Byte>)
    ensures Unknowns(b[..ScanExtras(b).len])
    decreases |b|
  {
    var s := ScanExtras(b);
    if s.len == 0 {
    } else {
      var next := b[b[0]..];
      ScanPassesUnknowns(next);
      assert b[..s.len][b[0]..] == next[..ScanExtras(next).len];
    }
  }

  // ------------------------------------------------------------ endpoints

  lemma WordRoundTrip(w: nat)
    requires w < 65536
    ensures Word16(PrintWord(w)[0], PrintWord(w)[1]) == w
  {
  }

  lemma EndpointHead(e: Endpoint)
    requires GoodEndpoint(e)
    ensures 7 <= e.bLength <= |PrintEndpoint(e)|
    ensures PrintEndpoint(e)[0] == e.bLength && PrintEndpoint(e)[1] == 5
  {
  }

  ghost function Head(e: Endpoint): seq<Byte>
    requires GoodEndpoint(e)
  {
    [e.bLength, e.bDescriptorType, e.bEndpointAddress, e.bmAttributes] + PrintWord(e.wMaxPacketSize) + [e.bInterval] +
    if e.bLength == 9 then [e.bRefresh, e.bSynchAddress] else []
  }

  /** The fields come back out of the first 7 or 9 bytes, whatever follows. */
  lemma EndpointFieldsRoundTrip(e: Endpoint, tail: seq<Byte>)
    requires GoodEndpoint(e)
    ensures |Head(e)| == e.bLength && EndpointFields(Head(e) + tail, e.extra) == e
  {
    hide Word16, PrintWord, Unknowns;
    WordRoundTrip(e.wMaxPacketSize);
  }

  lemma EndpointRoundTrip(e: Endpoint, rest: seq<Byte>)
    requires GoodEndpoint(e) && EndsScan(rest)
    ensures ParseEndpoint(PrintEndpoint(e) + rest) == Parsed(|PrintEndpoint(e)|, e)
  {
    hide ScanExtras, EndpointFields, Unknowns;
    var tail := e.extra + rest;
    var b := Head(e) + tail;
    assert PrintEndpoint(e) == Head(e) + e.extra;
    assert PrintEndpoint(e) + rest == b;
    EndpointFieldsRoundTrip(e, tail);
    EndpointHead(e);
    ScanStops(e.extra, rest);
    assert b[e.bLength..] == tail;
    assert tail[..|e.extra|] == e.extra;
  }

  lemma EndpointsStart(es: seq<Endpoint>, rest: seq<Byte>)
    requires GoodEndpoints(es) && EndsScan(rest)
    ensures EndsScan(PrintEndpoints(es) + rest)
  {
    hide PrintEndpoint, GoodEndpoint;
    if es == [] {
      assert PrintEndpoints(es) + rest == rest;
    } else {
      EndpointHead(es[0]);
    }
  }

  lemma {:induction false} EndpointsRoundTrip(es: seq<Endpoint>, rest: seq<Byte>)
    requires GoodEndpoints(es) && EndsScan(rest)
    ensures ParseEndpoints(PrintEndpoints(es) + rest, |es|) == Parsed(|PrintEndpoints(es)|, es)
    decreases |es|
  {
    hide PrintEndpoint, GoodEndpoint, ParseEndpoint, EndsScan, ParseEndpoints, PrintEndpoints;
    PrintedFirst(es);
    if es == [] {
      NoEndpoints(rest);
    } else {
      var first, tail := PrintEndpoint(es[0]), PrintEndpoints(es[1..]) + rest;
      assert PrintEndpoints(es) + rest == first + tail;
      EndpointsStart(es[1..], rest);
      EndpointHead(es[0]);
      EndpointRoundTrip(es[0], tail);
      EndpointsRoundTrip(es[1..], rest);
      assert (first + tail)[|first|..] == tail;
      assert [es[0]] + es[1..] == es;
      FirstParsed(first + tail, |es|);
    }
  }

  lemma NoEndpoints(rest: seq<Byte>)
    ensures ParseEndpoints([] + rest, 0) == Parsed(0, [])
  {
  }

  lemma FirstParsed(b: seq<Byte>, n: nat)
    requires n > 0
    ensures var first := ParseEndpoint(b);
            if first.r <= 0 then ParseEndpoints(b, n).value == []
            else
              var others := ParseEndpoints(b[first.r..], n - 1);
              others.r >= 0 ==> ParseEndpoints(b, n) == Parsed(first.r + others.r, [first.value] + others.value)
  {
    hide ParseEndpoint;
  }

  lemma PrintedFirst(es: seq<Endpoint>)
    requires GoodEndpoints(es)
    ensures if es == [] then PrintEndpoints(es) == []
            else GoodEndpoint(es[0]) && GoodEndpoints(es[1..]) &&
                 PrintEndpoints(es) == PrintEndpoint(es[0]) + PrintEndpoints(es[1..])
  {
    hide PrintEndpoint, GoodEndpoint;
  }

  // ------------------------------------------------------------ interfaces

  lemma SettingRoundTrip(a: AltSetting, rest: seq<Byte>)
    requires GoodSetting(a) && EndsScan(rest)
    ensures ParseTurn(PrintSetting(a) + rest) == Setting(|PrintSetting(a)|, a, false)
  {
    hide PrintEndpoints, ParseEndpoints, ScanExtras, GoodEndpoints, EndsScan, Unknowns;
    var b := PrintSetting(a) + rest;
    var tail := PrintEndpoints(a.endpoints) + rest;
    EndpointsStart(a.endpoints, rest);
    ScanStops(a.extra, tail);
    EndpointsRoundTrip(a.endpoints, rest);
    assert b[9..] == a.extra + tail;
    assert (a.extra + tail)[..|a.extra|] == a.extra && (a.extra + tail)[|a.extra|..] == tail;
  }

  /** An interface descriptor with this number. */
  predicate Continues(rest: seq<Byte>, number: int) {
    |rest| >= 9 && rest[1] == 4 && rest[2] == number
  }

  lemma ContinuesIs(rest: seq<Byte>, number: int)
    ensures Continues(rest, number) == AnotherSetting(rest, number)
  {
  }

  /** What follows an interface neither continues its descriptors nor adds an alternate setting. */
  ghost predicate EndsInterface(rest: seq<Byte>, number: int) {
    EndsScan(rest) && !Continues(rest, number)
  }

  lemma SettingStarts(a: AltSetting, rest: seq<Byte>)
    requires GoodSetting(a)
    ensures EndsScan(PrintSetting(a) + rest)
    ensures forall n :: Continues(PrintSetting(a) + rest, n) <==> n == a.bInterfaceNumber
  {
  }

  lemma {:induction false} InterfaceRoundTrip(alts: seq<AltSetting>, rest: seq<Byte>)
    requires GoodInterface(alts) && EndsInterface(rest, alts[0].bInterfaceNumber)
    ensures ParseInterface(PrintInterface(alts) + rest) == Parsed(|PrintInterface(alts)|, alts)
    decreases |alts|
  {
    hide PrintSetting, GoodSetting, ParseTurn, EndsScan, Continues, AnotherSetting;
    var others := alts[1..];
    var first, tail := PrintSetting(alts[0]), PrintInterface(others) + rest;
    assert PrintInterface(alts) + rest == first + tail;
    assert (first + tail)[|first|..] == tail;
    assert [alts[0]] + others == alts;
    SettingNumber(alts[0], tail);
    if others == [] {
      assert tail == rest && alts == [alts[0]];
    } else {
      var more := PrintInterface(others[1..]) + rest;
      assert tail == PrintSetting(others[0]) + more;
      SettingStarts(others[0], more);
      InterfaceRoundTrip(others, rest);
    }
    SettingRoundTrip(alts[0], tail);
    var b := PrintInterface(alts) + rest;
    assert ParseTurn(b) == Setting(|first|, alts[0], false) && b[|first|..] == tail;
    ContinuesIs(tail, b[2]);
    assert Continues(tail, b[2]) <==> others != [];
  }

  lemma SettingNumber(a: AltSetting, rest: seq<Byte>)
    requires GoodSetting(a)
    ensures |PrintSetting(a)| >= 9 && (PrintSetting(a) + rest)[2] == a.bInterfaceNumber
  {
  }

  lemma InterfaceStarts(alts: seq<AltSetting>, rest: seq<Byte>)
    requires GoodInterface(alts)
    ensures |PrintInterface(alts)| >= 9
    ensures EndsScan(PrintInterface(alts) + rest)
    ensures forall n :: n != alts[0].bInterfaceNumber ==> !Continues(PrintInterface(alts) + rest, n)
  {
    hide PrintSetting, GoodSetting, EndsScan, Continues;
    var more := PrintInterface(alts[1..]) + rest;
    assert PrintInterface(alts) + rest == PrintSetting(alts[0]) + more;
    SettingStarts(alts[0], more);
    SettingNumber(alts[0], more);
  }

  // ------------------------------------------------------------ configurations

  /** What may follow a whole list of interfaces. */
  ghost predicate EndsInterfaces(rest: seq<Byte>, interfaces: seq<seq<AltSetting>>)
    requires GoodInterfaces(interfaces)
  {
    interfaces != [] ==> EndsInterface(rest, interfaces[|interfaces| - 1][0].bInterfaceNumber)
  }

  /** `kept` holds unknown descriptors from before an earlier interface; otherwise `extra` comes first. */
  lemma {:induction false} InterfacesRoundTrip(
      interfaces: seq<seq<AltSetting>>, extra: seq<Byte>, kept: seq<Byte>, rest: seq<Byte>)
    requires GoodInterfaces(interfaces) && EndsInterfaces(rest, interfaces)
    requires Unknowns(extra) && (interfaces == [] ==> extra == [])
    requires kept == [] || extra == []
    ensures ParseBody(extra + PrintInterfaces(interfaces) + rest, |interfaces|, kept)
         == Body(|rest|, interfaces, kept + extra)
    decreases |interfaces|
  {
    hide GoodSettings, ParseInterface, PrintInterface, EndsScan, Continues, ScanExtras, Unknowns, EndsInterface,
         Standard, EndsInterfaces;
    var b := extra + PrintInterfaces(interfaces) + rest;
    if interfaces == [] {
      assert b == rest && kept + extra == kept;
    } else {
      var others := interfaces[1..];
      var first, tail := PrintInterface(interfaces[0]), PrintInterfaces(others) + rest;
      assert b == extra + (first + tail);
      NextInterfaces(interfaces, rest);
      InterfaceStarts(interfaces[0], tail);
      ScanStops(extra, first + tail);
      assert b[|extra|..] == first + tail && b[..|extra|] == extra && (first + tail)[|first|..] == tail;
      InterfaceRoundTrip(interfaces[0], tail);
      assert [] + PrintInterfaces(others) + rest == tail;
      NoUnknowns();
      InterfacesRoundTrip(others, [], kept + extra, rest);
      assert kept + extra + [] == kept + extra;
      assert kept + extra == if kept == [] then extra else kept;
      assert [interfaces[0]] + others == interfaces;
    }
  }

  lemma NoUnknowns()
    ensures Unknowns([])
  {
  }

  lemma NextInterfaces(interfaces: seq<seq<AltSetting>>, rest: seq<Byte>)
    requires GoodInterfaces(interfaces) && interfaces != [] && EndsInterfaces(rest, interfaces)
    ensures GoodInterfaces(interfaces[1..]) && EndsInterfaces(rest, interfaces[1..])
    ensures interfaces[0] != []
    ensures EndsInterface(PrintInterfaces(interfaces[1..]) + rest, interfaces[0][0].bInterfaceNumber)
  {
    hide PrintInterface, EndsScan, Continues, GoodSetting;
    var others := interfaces[1..];
    assert GoodInterface(interfaces[0]);
    assert forall i :: 0 < i < |others| ==> others[i - 1] == interfaces[i] && others[i] == interfaces[i + 1];
    if others == [] {
      assert PrintInterfaces(others) + rest == rest;
    } else {
      var more := PrintInterfaces(others[1..]) + rest;
      assert PrintInterfaces(others) + rest == PrintInterface(others[0]) + more;
      InterfaceStarts(others[0], more);
      assert interfaces[1 - 1][0].bInterfaceNumber != interfaces[1][0].bInterfaceNumber;
    }
  }

  /** Parsing undoes printing, whatever well-separated bytes follow, such as another configuration. */
  lemma ConfigRoundTrip(c: Config, rest: seq<Byte>)
    requires GoodConfig(c) && EndsInterfaces(rest, c.interfaces)
    ensures ParseConfiguration(PrintConfig(c) + rest) == Parsed(|rest|, c)
  {
    hide GoodInterface, PrintInterfaces, ParseBody, Unknowns, Word16;
    var b := PrintConfig(c) + rest;
    WordRoundTrip(c.wTotalLength);
    InterfacesRoundTrip(c.interfaces, c.extra, [], rest);
    assert b[9..] == c.extra + PrintInterfaces(c.interfaces) + rest;
    assert [] + c.extra == c.extra;
  }

  /** The bytes of one configuration and nothing else: no bytes are left over. */
  lemma ConfigAloneRoundTrip(c: Config)
    requires GoodConfig(c)
    ensures ParseConfiguration(PrintConfig(c)) == Parsed(0, c)
  {
    ConfigRoundTrip(c, []);
    assert PrintConfig(c) + [] == PrintConfig(c);
  }

  // ------------------------------------------------------------ twenty-five bytes

  /** A configuration of one interface with a bulk endpoint at address 0x81, byte by byte: it is parsed whole; and no
      bytes at all are answered with -1. */
  lemma OneEndpoint()
    ensures var b: seq<Byte> := [9, 2, 25, 0, 1, 1, 0, 0x80, 50, 9, 4, 0, 0, 1, 0xFF, 0, 0, 0, 7, 5, 0x81, 2, 0, 2, 0];
            var e := Endpoint(7, 5, 0x81, 2, 512, 0, 0, 0, []);
            var a := AltSetting(9, 4, 0, 0, 1, 0xFF, 0, 0, 0, [e], []);
            ParseConfiguration(b) == Parsed(0, Config(9, 2, 25, 1, 1, 0, 0x80, 50, [[a]], []))
    ensures ParseConfiguration([]).r == -1
  {
    hide ParseConfiguration, PrintConfig, GoodConfig;
    var e := Endpoint(7, 5, 0x81, 2, 512, 0, 0, 0, []);
    var a := AltSetting(9, 4, 0, 0, 1, 0xFF, 0, 0, 0, [e], []);
    var c := Config(9, 2, 25, 1, 1, 0, 0x80, 50, [[a]], []);
    OneEndpointPrinted(e, a, c);
    ConfigAloneRoundTrip(c);
    assert ParseConfiguration([]).r == -1 by { NoBytes(); }
  }

  lemma NoBytes()
    ensures ParseConfiguration([]).r == -1
  {
  }

  lemma OneEndpointPrinted(e: Endpoint, a: AltSetting, c: Config)
    requires e == Endpoint(7, 5, 0x81, 2, 512, 0, 0, 0, [])
    requires a == AltSetting(9, 4, 0, 0, 1, 0xFF, 0, 0, 0, [e], [])
    requires c == Config(9, 2, 25, 1, 1, 0, 0x80, 50, [[a]], [])
    ensures GoodConfig(c)
    ensures PrintConfig(c) == [9, 2, 25, 0, 1, 1, 0, 0x80, 50, 9, 4, 0, 0, 1, 0xFF, 0, 0, 0, 7, 5, 0x81, 2, 0, 2, 0]
  {
    hide PrintSetting, PrintInterfaces, PrintEndpoint, GoodInterfaces;
    assert GoodEndpoint(e) && PrintEndpoint(e) == [7, 5, 0x81, 2, 0, 2, 0] by { EndpointBytes(e); }
    assert GoodSetting(a);
    PrintedAlone(e, a);
    ConfigBytes(c, a);
  }

  lemma EndpointBytes(e: Endpoint)
    requires e == Endpoint(7, 5, 0x81, 2, 512, 0, 0, 0, [])
    ensures GoodEndpoint(e) && PrintEndpoint(e) == [7, 5, 0x81, 2, 0, 2, 0]
  {
  }

  lemma ConfigBytes(c: Config, a: AltSetting)
    requires GoodInterfaces([[a]]) && c == Config(9, 2, 25, 1, 1, 0, 0x80, 50, [[a]], [])
    ensures GoodConfig(c)
    ensures PrintConfig(c) == [9, 2, 25, 0, 1, 1, 0, 0x80, 50] + PrintInterfaces([[a]])
  {
    hide GoodInterfaces, PrintInterfaces;
  }

  lemma PrintedAlone(e: Endpoint, a: AltSetting)
    requires GoodEndpoint(e) && GoodSetting(a) && a.endpoints == [e] && a.extra == []
    ensures GoodInterfaces([[a]]) && PrintInterfaces([[a]]) == PrintSetting(a)
    ensures PrintSetting(a) == [a.bLength, a.bDescriptorType, a.bInterfaceNumber, a.bAlternateSetting, a.bNumEndpoints,
                                a.bInterfaceClass, a.bInterfaceSubClass, a.bInterfaceProtocol, a.iInterface] +
                               PrintEndpoint(e)
  {
    hide PrintEndpoint, GoodEndpoint;
    assert PrintEndpoints([e]) == PrintEndpoint(e) + PrintEndpoints([]);
    assert PrintInterface([a]) == PrintSetting(a) + PrintInterface([]);
    assert PrintInterfaces([[a]]) == PrintInterface([a]) + PrintInterfaces([]);
  }
}
