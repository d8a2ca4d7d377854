/**
 Parsing USB configuration descriptors (libusb/descriptor.c 45-491; section 9.6 of the USB 2.0
 specification): what the three parsers compute, as functions of the bytes.
 */
module UsbDescriptor {

  type Byte = x: int | 0 <= x < 256

  const LIBUSB_ERROR_IO: int := -1
  const DT_DEVICE: int := 1
  const DT_CONFIG: int := 2
  const DT_INTERFACE: int := 4
  const DT_ENDPOINT: int := 5
  const USB_MAXENDPOINTS: int := 32
  const USB_MAXINTERFACES: int := 32
  const DESC_HEADER_LENGTH: int := 2
  const CONFIG_DESC_LENGTH: int := 9
  const INTERFACE_DESC_LENGTH: int := 9
  const ENDPOINT_DESC_LENGTH: int := 7
  const ENDPOINT_AUDIO_DESC_LENGTH: int := 9

  datatype Endpoint = Endpoint(
    bLength: Byte, bDescriptorType: Byte, bEndpointAddress: Byte, bmAttributes: Byte, wMaxPacketSize: nat,
    bInterval: Byte, bRefresh: Byte, bSynchAddress: Byte, extra: seq<Byte>)

  /** `bNumEndpoints` is the count the structure ends up with; `endpoints` are those filled in. */
  datatype AltSetting = AltSetting(
    bLength: Byte, bDescriptorType: Byte, bInterfaceNumber: Byte, bAlternateSetting: Byte, bNumEndpoints: nat,
    bInterfaceClass: Byte, bInterfaceSubClass: Byte, bInterfaceProtocol: Byte, iInterface: Byte,
    endpoints: seq<Endpoint>, extra: seq<Byte>)

  datatype Config = Config(
    bLength: Byte, bDescriptorType: Byte, wTotalLength: nat, bNumInterfaces: nat, bConfigurationValue: Byte,
    iConfiguration: Byte, bmAttributes: Byte, maxPower: Byte,
    interfaces: seq<seq<AltSetting>>, extra: seq<Byte>)

  /** A parser's return value, and what it filled in. */
  datatype Parsed<+T> = Parsed(r: int, value: T)

  // ------------------------------------------------------------ usbi_parse_descriptor

  function Word16(lo: Byte, hi: Byte): nat {
    hi * 256 + lo
  }

  function FieldWidth(c: char): nat {
    match c
    case 'b' => 1
    case 'w' => 2
    case 'd' => 4
    case 'u' => 16
    case _ => 0
  }

  function FormatWidth(descriptor: string): nat {
    if descriptor == "" then 0 else FieldWidth(descriptor[0]) + FormatWidth(descriptor[1..])
  }

  /** The fields one format character stores; multi-byte numbers are little-endian. */
  function Field(c: char, source: seq<Byte>): seq<int>
    requires FieldWidth(c) <= |source|
  {
    match c
    case 'b' => [source[0]]
    case 'w' => [Word16(source[0], source[1])]
    case 'd' => [Word16(source[0], source[1]) + 65536 * Word16(source[2], source[3])]
    case 'u' => source[..16]
    case _ => []
  }

  function Fields(source: seq<Byte>, descriptor: string): seq<int>
    requires FormatWidth(descriptor) <= |source|
    decreases |descriptor|
  {
    if descriptor == "" then []
    else
      Field(descriptor[0], source) + Fields(source[FieldWidth(descriptor[0])..], descriptor[1..])
  }

  /** The number that bytes spell, the first of them worth least. */
  function LittleEndian(bytes: seq<Byte>): nat {
    if bytes == [] then 0 else bytes[0] + 256 * LittleEndian(bytes[1..])
  }

  /** One byte, two or four of them as a little-endian number, or sixteen as they are. */
  lemma FieldMeaning(source: seq<Byte>)
    requires |source| >= 16
    ensures FieldWidth('b') == 1 && Field('b', source) == [LittleEndian(source[..1])]
    ensures FieldWidth('w') == 2 && Field('w', source) == [LittleEndian(source[..2])]
    ensures FieldWidth('d') == 4 && Field('d', source) == [LittleEndian(source[..4])]
    ensures FieldWidth('u') == 16 && Field('u', source) == source[..16]
    ensures forall c :: c != 'b' && c != 'w' && c != 'd' && c != 'u' ==> FieldWidth(c) == 0 && Field(c, source) == []
  {
    var b0, b1, b2, b3 := source[0], source[1], source[2], source[3];
    assert source[..1] == [b0] && source[..2] == [b0, b1] && source[..4] == [b0, b1, b2, b3];
    assert LittleEndian([b3]) == b3 && LittleEndian([b0]) == b0 && LittleEndian([b1]) == b1;
    assert LittleEndian([b2, b3]) == b2 + 256 * LittleEndian([b2, b3][1..]);
    assert LittleEndian([b1, b2, b3]) == b1 + 256 * LittleEndian([b1, b2, b3][1..]);
    assert [b2, b3][1..] == [b3] && [b1, b2, b3][1..] == [b2, b3] && [b0, b1, b2, b3][1..] == [b1, b2, b3];
    assert [b0, b1][1..] == [b1];
  }

  // ------------------------------------------------------------ unknown descriptors

  /** How a scan over class and vendor descriptors ends. */
  datatype Ending = Done | Bad | Short

  datatype Scan = Scan(len: nat, ending: Ending)

  predicate Proper(bDescriptorType: int) {
    bDescriptorType == DT_ENDPOINT || bDescriptorType == DT_INTERFACE ||
    bDescriptorType == DT_CONFIG || bDescriptorType == DT_DEVICE
  }

  /** The loops at descriptor.c 144-167, 283-308 and 428-455. */
  function ScanExtras(b: seq<Byte>): (s: Scan)
    ensures s.len <= |b|
    decreases |b|
  {
    if |b| < DESC_HEADER_LENGTH then Scan(0, Done)
    else if b[0] < DESC_HEADER_LENGTH then Scan(0, Bad)
    else if b[0] > |b| then Scan(0, Short)
    else if Proper(b[1]) then Scan(0, Done)
    else
      var s := ScanExtras(b[b[0]..]);
      Scan(b[0] + s.len, s.ending)
  }

  // ------------------------------------------------------------ endpoints

  const NoEndpoint: Endpoint := Endpoint(0, 0, 0, 0, 0, 0, 0, 0, [])

  /** descriptor.c 128-131. The structure was zeroed, so a short descriptor leaves the audio fields zero. */
  function EndpointFields(b: seq<Byte>, extra: seq<Byte>): Endpoint
    requires |b| >= ENDPOINT_DESC_LENGTH && (b[0] >= ENDPOINT_AUDIO_DESC_LENGTH ==> |b| >= ENDPOINT_AUDIO_DESC_LENGTH)
  {
    Endpoint(b[0], b[1], b[2], b[3], Word16(b[4], b[5]), b[6],
             if b[0] >= ENDPOINT_AUDIO_DESC_LENGTH then b[7] else 0,
             if b[0] >= ENDPOINT_AUDIO_DESC_LENGTH then b[8] else 0, extra)
  }

  /** descriptor.c 101-189. */
  function ParseEndpoint(b: seq<Byte>): (p: Parsed<Endpoint>)
    ensures p.r == LIBUSB_ERROR_IO || 0 <= p.r <= |b|
  {
    if |b| < DESC_HEADER_LENGTH then Parsed(LIBUSB_ERROR_IO, NoEndpoint)
    else if b[1] != DT_ENDPOINT then Parsed(0, NoEndpoint)
    else if b[0] > |b| then Parsed(0, NoEndpoint)
    else if b[0] < ENDPOINT_DESC_LENGTH then Parsed(LIBUSB_ERROR_IO, NoEndpoint)
    else
      var rest := b[b[0]..];
      var s := ScanExtras(rest);
      match s.ending
      case Bad => Parsed(LIBUSB_ERROR_IO, EndpointFields(b, []))
      case Short => Parsed(b[0] + s.len, EndpointFields(b, []))
      case Done => Parsed(b[0] + s.len, EndpointFields(b, rest[..s.len]))
  }

  /** The loop at descriptor.c 332-345: up to n endpoints, stopping early at something else. */
  function ParseEndpoints(b: seq<Byte>, n: nat): (p: Parsed<seq<Endpoint>>)
    ensures p.r == LIBUSB_ERROR_IO || 0 <= p.r <= |b|
    ensures |p.value| <= n && (p.r < 0 ==> p.value == [])
    decreases n
  {
    if n == 0 then Parsed(0, [])
    else
      var first := ParseEndpoint(b);
      if first.r < 0 then Parsed(LIBUSB_ERROR_IO, [])
      else if first.r == 0 then Parsed(0, [])
      else
        var others := ParseEndpoints(b[first.r..], n - 1);
        if others.r < 0 then Parsed(LIBUSB_ERROR_IO, [])
        else Parsed(first.r + others.r, [first.value] + others.value)
  }

  // ------------------------------------------------------------ interfaces

  function AltFields(b: seq<Byte>, bNumEndpoints: nat, endpoints: seq<Endpoint>, extra: seq<Byte>): AltSetting
    requires |b| >= INTERFACE_DESC_LENGTH
  {
    AltSetting(b[0], b[1], b[2], b[3], bNumEndpoints, b[5], b[6], b[7], b[8], endpoints, extra)
  }

  /** What one turn of the loop at descriptor.c 231-354 finds: an error, nothing (the parse ends before it),
      or an alternate setting, after which the parse may have to stop. */
  datatype Turn = Fault | Nothing | Setting(len: nat, alt: AltSetting, stop: bool)

  function ParseTurn(b: seq<Byte>): (t: Turn)
    ensures t.Setting? ==> INTERFACE_DESC_LENGTH <= t.len <= |b| && t.alt.bInterfaceNumber == b[2]
  {
    if |b| < INTERFACE_DESC_LENGTH || b[1] != DT_INTERFACE then Nothing
    else if b[0] < INTERFACE_DESC_LENGTH then Fault
    else if b[0] > |b| then Nothing
    else if b[4] > USB_MAXENDPOINTS then Fault
    else
      var rest := b[b[0]..];
      var s := ScanExtras(rest);
      match s.ending
      case Bad => Fault
      case Short => Setting(b[0] + s.len, AltFields(b, b[4], [], []), true)
      case Done =>
        var p := ParseEndpoints(rest[s.len..], b[4]);
        if p.r < 0 then Fault
        else Setting(b[0] + s.len + p.r, AltFields(b, |p.value|, p.value, rest[..s.len]), false)
  }

  /** descriptor.c 349-353: whether another setting of the same interface follows. */
  predicate AnotherSetting(b: seq<Byte>, interface_number: int) {
    |b| >= INTERFACE_DESC_LENGTH && b[1] == DT_INTERFACE && b[2] == interface_number
  }

  /** descriptor.c 216-360. */
  function ParseInterface(b: seq<Byte>): (p: Parsed<seq<AltSetting>>)
    ensures p.r == LIBUSB_ERROR_IO || 0 <= p.r <= |b|
    ensures p.r <= 0 ==> p.value == []
    decreases |b|
  {
    match ParseTurn(b)
    case Fault => Parsed(LIBUSB_ERROR_IO, [])
    case Nothing => Parsed(0, [])
    case Setting(len, alt, stop) =>
      if stop || !AnotherSetting(b[len..], b[2]) then Parsed(len, [alt])
      else
        var others := ParseInterface(b[len..]);
        if others.r < 0 then Parsed(LIBUSB_ERROR_IO, [])
        else Parsed(len + others.r, [alt] + others.value)
  }

  // ------------------------------------------------------------ configurations

  /** The interfaces and the first nonempty run of unknown descriptors, with the bytes left over; or an error. */
  datatype Body = Body(r: int, interfaces: seq<seq<AltSetting>>, extra: seq<Byte>)

  /** The loop at descriptor.c 421-486, with n interfaces still to come. */
  function ParseBody(b: seq<Byte>, n: nat, extra: seq<Byte>): (p: Body)
    ensures p.r == LIBUSB_ERROR_IO || 0 <= p.r <= |b|
    ensures |p.interfaces| <= n
    decreases n
  {
    if n == 0 then Body(|b|, [], extra)
    else
      var s := ScanExtras(b);
      var rest := b[s.len..];
      match s.ending
      case Bad => Body(LIBUSB_ERROR_IO, [], [])
      case Short => Body(|rest|, [], extra)
      case Done =>
        var kept := if extra == [] then b[..s.len] else extra;
        var p := ParseInterface(rest);
        if p.r < 0 then Body(LIBUSB_ERROR_IO, [], [])
        else if p.r == 0 then Body(|rest|, [], kept)
        else
          var others := ParseBody(rest[p.r..], n - 1, kept);
          if others.r < 0 then others
          else Body(others.r, [p.value] + others.interfaces, others.extra)
  }

  const NoConfig: Config := Config(0, 0, 0, 0, 0, 0, 0, 0, [], [])

  /** descriptor.c 375-491. The result is the number of bytes left over, or an error. */
  function ParseConfiguration(b: seq<Byte>): (p: Parsed<Config>)
    ensures p.r == LIBUSB_ERROR_IO || 0 <= p.r <= |b|
  {
    if |b| < CONFIG_DESC_LENGTH || b[1] != DT_CONFIG || b[0] < CONFIG_DESC_LENGTH || b[0] > |b| ||
       b[4] > USB_MAXINTERFACES
    then Parsed(LIBUSB_ERROR_IO, NoConfig)
    else
      var body := ParseBody(b[b[0]..], b[4], []);
      if body.r < 0 then Parsed(LIBUSB_ERROR_IO, NoConfig)
      else
        Parsed(body.r, Config(b[0], b[1], Word16(b[2], b[3]), |body.interfaces|, b[5], b[6], b[7], b[8],
                              body.interfaces, body.extra))
  }
}
