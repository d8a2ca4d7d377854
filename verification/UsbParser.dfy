/**
 The parsers of libusb/descriptor.c in their own form: loops that advance a position through the buffer,
 keeping the bytes already parsed and the bytes still to come. `buffer` holds exactly `size` bytes.
 */
module UsbParser {
  import opened UsbDescriptor

  /** usbi_parse_descriptor (45-93): how many bytes the format covers, and the fields it stores. */
  method UsbiParseDescriptor(source: seq<Byte>, descriptor: string) returns (sp: nat, dest: seq<int>)
    requires FormatWidth(descriptor) <= |source|
    ensures sp == FormatWidth(descriptor)
    ensures dest == Fields(source, descriptor)
  {
    hide FormatWidth, Fields, Field, FieldWidth;
    sp, dest := 0, [];
    var cp := 0;
    assert descriptor[0..] == descriptor && source[0..] == source;
    while cp < |descriptor|
      invariant cp <= |descriptor|
      invariant sp + FormatWidth(descriptor[cp..]) == FormatWidth(descriptor)
      invariant dest + Fields(source[sp..], descriptor[cp..]) == Fields(source, descriptor)
    {
      var c := descriptor[cp];
      NextField(source, descriptor, sp, cp, dest);
      dest := dest + Field(c, source[sp..]);
      sp := sp + FieldWidth(c);
      cp := cp + 1;
    }
    assert descriptor[cp..] == "";
    NoFields(source[sp..]);
  }

  lemma NoFields(source: seq<Byte>)
    ensures FormatWidth("") == 0 && Fields(source, "") == []
  {
  }

  lemma NextField(source: seq<Byte>, descriptor: string, sp: nat, cp: nat, dest: seq<int>)
    requires cp < |descriptor| && sp + FormatWidth(descriptor[cp..]) <= |source|
    ensures var c := descriptor[cp];
            && FormatWidth(descriptor[cp..]) == FieldWidth(c) + FormatWidth(descriptor[cp + 1..])
            && dest + Fields(source[sp..], descriptor[cp..])
            == dest + Field(c, source[sp..]) + Fields(source[sp + FieldWidth(c)..], descriptor[cp + 1..])
  {
    hide Fields, Field, FieldWidth;
    var c := descriptor[cp];
    WidthStep(descriptor[cp..]);
    FieldsStep(source[sp..], descriptor[cp..]);
    assert descriptor[cp..][1..] == descriptor[cp + 1..];
    assert source[sp..][FieldWidth(c)..] == source[sp + FieldWidth(c)..];
    Associative(dest, Field(c, source[sp..]), Fields(source[sp + FieldWidth(c)..], descriptor[cp + 1..]));
  }

  lemma Associative(x: seq<int>, y: seq<int>, z: seq<int>)
    ensures x + (y + z) == x + y + z
  {
  }

  lemma WidthStep(descriptor: string)
    requires descriptor != ""
    ensures FormatWidth(descriptor) == FieldWidth(descriptor[0]) + FormatWidth(descriptor[1..])
  {
  }

  lemma FieldsStep(source: seq<Byte>, descriptor: string)
    requires descriptor != "" && FormatWidth(descriptor) <= |source|
    ensures FieldWidth(descriptor[0]) + FormatWidth(descriptor[1..]) <= |source|
    ensures Fields(source, descriptor)
         == Field(descriptor[0], source) + Fields(source[FieldWidth(descriptor[0])..], descriptor[1..])
  {
  }

  ghost predicate Bytes(descriptor: string, i: nat, j: nat) {
    j <= |descriptor| && forall k :: i <= k < j ==> descriptor[k] == 'b'
  }

  /** k byte fields copy k bytes. */
  lemma ByteRun(b: seq<Byte>, descriptor: string, k: nat)
    requires Bytes(descriptor, 0, k) && FormatWidth(descriptor) <= |b|
    ensures FormatWidth(descriptor) == k + FormatWidth(descriptor[k..])
    ensures Fields(b, descriptor) == b[..k] + Fields(b[k..], descriptor[k..])
    decreases k
  {
    hide FormatWidth, Fields;
    if k == 0 {
      assert descriptor[0..] == descriptor && b[0..] == b;
      assert b[..0] + Fields(b, descriptor) == Fields(b, descriptor);
    } else {
      WidthStep(descriptor);
      FieldsStep(b, descriptor);
      var d, t := descriptor[1..], b[1..];
      ByteRun(t, d, k - 1);
      assert d[k - 1..] == descriptor[k..] && t[k - 1..] == b[k..];
      Associative([b[0]], t[..k - 1], Fields(b[k..], descriptor[k..]));
      assert [b[0]] + t[..k - 1] == b[..k];
    }
  }

  lemma BytesWidth(descriptor: string)
    requires Bytes(descriptor, 0, |descriptor|)
    ensures FormatWidth(descriptor) == |descriptor|
  {
    if descriptor != "" {
      BytesWidth(descriptor[1..]);
    }
  }

  lemma ByteFormat(b: seq<Byte>, descriptor: string)
    requires |descriptor| <= |b| && Bytes(descriptor, 0, |descriptor|)
    ensures FormatWidth(descriptor) == |descriptor| && Fields(b, descriptor) == b[..|descriptor|]
  {
    hide FormatWidth, Fields;
    var n := |descriptor|;
    BytesWidth(descriptor);
    NoFields(b[n..]);
    ByteRun(b, descriptor, n);
    assert descriptor[n..] == "";
  }

  lemma WordFirst(b: seq<Byte>, descriptor: string)
    requires descriptor != "" && descriptor[0] == 'w' && Bytes(descriptor, 1, |descriptor|)
    requires |descriptor| < |b|
    ensures FormatWidth(descriptor) == |descriptor| + 1
    ensures Fields(b, descriptor) == [Word16(b[0], b[1])] + b[2..|descriptor| + 1]
  {
    hide FormatWidth, Fields;
    ByteFormat(b[2..], descriptor[1..]);
    WidthStep(descriptor);
    FieldsStep(b, descriptor);
    assert b[2..][..|descriptor| - 1] == b[2..|descriptor| + 1];
  }

  lemma WordWidth(descriptor: string, k: nat)
    requires k < |descriptor| && descriptor[k] == 'w'
    requires Bytes(descriptor, 0, k) && Bytes(descriptor, k + 1, |descriptor|)
    ensures FormatWidth(descriptor) == |descriptor| + 1
    decreases k
  {
    if k > 0 {
      WordWidth(descriptor[1..], k - 1);
    } else {
      BytesWidth(descriptor[1..]);
    }
  }

  /** A format with one word among bytes. */
  lemma WordFormat(b: seq<Byte>, descriptor: string, k: nat)
    requires k < |descriptor| && descriptor[k] == 'w'
    requires Bytes(descriptor, 0, k) && Bytes(descriptor, k + 1, |descriptor|)
    requires |descriptor| < |b|
    ensures FormatWidth(descriptor) == |descriptor| + 1
    ensures Fields(b, descriptor) == b[..k] + ([Word16(b[k], b[k + 1])] + b[k + 2..|descriptor| + 1])
  {
    hide FormatWidth, Fields, Word16;
    WordWidth(descriptor, k);
    ByteRun(b, descriptor, k);
    WordFirst(b[k..], descriptor[k..]);
    assert b[k..][2..|descriptor| - k + 1] == b[k + 2..|descriptor| + 1];
  }

  lemma EndpointFormats(b: seq<Byte>)
    ensures FormatWidth("bbbbwb") == 7 && FormatWidth("bbbbwbbb") == 9
    ensures |b| >= 7 ==> Fields(b, "bbbbwb") == [b[0], b[1], b[2], b[3], Word16(b[4], b[5]), b[6]]
    ensures |b| >= 9 ==>
              Fields(b, "bbbbwbbb") == [b[0], b[1], b[2], b[3], Word16(b[4], b[5]), b[6], b[7], b[8]]
  {
    hide FormatWidth, Fields, Word16;
    WordWidth("bbbbwb", 4);
    WordWidth("bbbbwbbb", 4);
    if |b| >= 7 {
      WordFormat(b, "bbbbwb", 4);
    }
    if |b| >= 9 {
      WordFormat(b, "bbbbwbbb", 4);
    }
  }

  lemma InterfaceFormat(b: seq<Byte>)
    requires |b| >= 9
    ensures FormatWidth("bbbbbbbbb") == 9 && Fields(b, "bbbbbbbbb") == b[..9]
  {
    ByteFormat(b, "bbbbbbbbb");
  }

  lemma ConfigFormat(b: seq<Byte>)
    requires |b| >= 9
    ensures FormatWidth("bbwbbbbb") == 9
    ensures Fields(b, "bbwbbbbb") == [b[0], b[1], Word16(b[2], b[3]), b[4], b[5], b[6], b[7], b[8]]
  {
    hide FormatWidth, Fields, Word16;
    WordFormat(b, "bbwbbbbb", 2);
  }

  /** The three loops that skip class and vendor descriptors (144-167, 283-308, 428-455). */
  method SkipUnknown(buffer: seq<Byte>) returns (s: Scan)
    ensures s == ScanExtras(buffer)
  {
    var pos: nat, size: nat := 0, |buffer|;
    while size >= DESC_HEADER_LENGTH
      invariant 0 <= pos && pos + size == |buffer|
      invariant ScanExtras(buffer) == Scan(pos + ScanExtras(buffer[pos..]).len, ScanExtras(buffer[pos..]).ending)
    {
      ByteFormat(buffer[pos..], "bb");
      var _, header := UsbiParseDescriptor(buffer[pos..], "bb");
      if header[0] < DESC_HEADER_LENGTH {
        return Scan(pos, Bad);
      } else if header[0] > size {
        return Scan(pos, Short);
      }
      if Proper(header[1]) {
        break;
      }
      assert buffer[pos..][header[0]..] == buffer[pos + header[0]..];
      pos := pos + header[0];
      size := size - header[0];
    }
    return Scan(pos, Done);
  }

  /** parse_endpoint (101-189). */
  method ParseEndpoint(buffer: seq<Byte>) returns (r: int, endpoint: Endpoint)
    ensures Parsed(r, endpoint) == UsbDescriptor.ParseEndpoint(buffer)
  {
    hide FormatWidth, Fields, ScanExtras;
    var size, parsed := |buffer|, 0;
    endpoint := NoEndpoint;
    if size < DESC_HEADER_LENGTH {
      return LIBUSB_ERROR_IO, endpoint;
    }
    ByteFormat(buffer, "bb");
    var _, header := UsbiParseDescriptor(buffer, "bb");
    if header[1] != DT_ENDPOINT || header[0] > size {
      return parsed, endpoint;
    }
    EndpointFormats(buffer);
    if header[0] >= ENDPOINT_AUDIO_DESC_LENGTH {
      var _, f := UsbiParseDescriptor(buffer, "bbbbwbbb");
      endpoint := Endpoint(f[0], f[1], f[2], f[3], f[4], f[5], f[6], f[7], []);
    } else if header[0] >= ENDPOINT_DESC_LENGTH {
      var _, f := UsbiParseDescriptor(buffer, "bbbbwb");
      endpoint := Endpoint(f[0], f[1], f[2], f[3], f[4], f[5], 0, 0, []);
    } else {
      return LIBUSB_ERROR_IO, endpoint;
    }
    size := size - header[0];
    parsed := parsed + header[0];
    var begin := parsed;
    var s := SkipUnknown(buffer[parsed..]);
    if s.ending.Bad? {
      return LIBUSB_ERROR_IO, endpoint;
    }
    size := size - s.len;
    parsed := parsed + s.len;
    if s.ending.Done? {
      assert buffer[begin..parsed] == buffer[begin..][..s.len];
      endpoint := endpoint.(extra := buffer[begin..parsed]);
    }
    return parsed, endpoint;
  }

  /** What a parse that has already passed `parsed` bytes and collected `done` makes of the rest. */
  ghost function After<T>(parsed: nat, done: seq<T>, rest: Parsed<seq<T>>): (p: Parsed<seq<T>>)
    ensures rest == Parsed(0, []) ==> p == Parsed(parsed, done)
    ensures parsed == 0 && done == [] && (rest.r < 0 ==> rest == Parsed(LIBUSB_ERROR_IO, [])) ==> p == rest
  {
    assert done + [] == done && [] + rest.value == rest.value;
    if rest.r < 0 then Parsed(LIBUSB_ERROR_IO, []) else Parsed(parsed + rest.r, done + rest.value)
  }

  lemma AfterAfter<T>(p: nat, done: seq<T>, q: nat, one: T, rest: Parsed<seq<T>>)
    ensures After(p, done, After(q, [one], rest)) == After(p + q, done + [one], rest)
  {
    assert done + ([one] + rest.value) == done + [one] + rest.value;
  }

  /** The endpoint loop of parse_interface (332-345). */
  method ParseEndpoints(buffer: seq<Byte>, bNumEndpoints: nat) returns (r: int, endpoint: seq<Endpoint>)
    ensures Parsed(r, endpoint) == UsbDescriptor.ParseEndpoints(buffer, bNumEndpoints)
  {
    hide UsbDescriptor.ParseEndpoint;
    var parsed: nat := 0;
    endpoint := [];
    var i := 0;
    assert buffer[0..] == buffer;
    while i < bNumEndpoints
      invariant i <= bNumEndpoints && |endpoint| == i && parsed <= |buffer|
      invariant UsbDescriptor.ParseEndpoints(buffer, bNumEndpoints)
             == After(parsed, endpoint, UsbDescriptor.ParseEndpoints(buffer[parsed..], bNumEndpoints - i))
    {
      var one, e := ParseEndpoint(buffer[parsed..]);
      if one < 0 {
        return LIBUSB_ERROR_IO, [];
      }
      if one == 0 {
        return parsed, endpoint;
      }
      assert buffer[parsed..][one..] == buffer[parsed + one..];
      AfterAfter(parsed, endpoint, one, e, UsbDescriptor.ParseEndpoints(buffer[parsed + one..], bNumEndpoints - i - 1));
      endpoint := endpoint + [e];
      parsed := parsed + one;
      i := i + 1;
    }
    return parsed, endpoint;
  }

  /** One turn of the loop of parse_interface (231-345), up to the test for another setting. */
  method ParseSetting(buffer: seq<Byte>) returns (t: Turn)
    requires |buffer| >= INTERFACE_DESC_LENGTH
    ensures t == ParseTurn(buffer)
  {
    hide FormatWidth, Fields, ScanExtras, UsbDescriptor.ParseEndpoints;
    InterfaceFormat(buffer);
    var _, f := UsbiParseDescriptor(buffer, "bbbbbbbbb");
    if f[1] != DT_INTERFACE {
      return Nothing;
    }
    if f[0] < INTERFACE_DESC_LENGTH {
      return Fault;
    }
    if f[0] > |buffer| {
      return Nothing;
    }
    if f[4] > USB_MAXENDPOINTS {
      return Fault;
    }
    var ifp := AltSetting(f[0], f[1], f[2], f[3], f[4], f[5], f[6], f[7], f[8], [], []);
    var parsed := f[0];
    var s := SkipUnknown(buffer[parsed..]);
    if s.ending.Bad? {
      return Fault;
    }
    if s.ending.Short? {
      return Setting(parsed + s.len, ifp, true);
    }
    assert buffer[parsed..][..s.len] == buffer[parsed..parsed + s.len];
    assert buffer[parsed..][s.len..] == buffer[parsed + s.len..];
    ifp := ifp.(extra := buffer[parsed..parsed + s.len]);
    parsed := parsed + s.len;
    var r, endpoint := ParseEndpoints(buffer[parsed..], ifp.bNumEndpoints);
    if r < 0 {
      return Fault;
    }
    ifp := ifp.(bNumEndpoints := |endpoint|, endpoints := endpoint);
    return Setting(parsed + r, ifp, false);
  }

  lemma InterfaceStep(buffer: seq<Byte>, parsed: nat, done: seq<AltSetting>)
    requires parsed <= |buffer|
    ensures var b := buffer[parsed..];
            var all := After(parsed, done, UsbDescriptor.ParseInterface(b));
            match ParseTurn(b)
            case Fault => all == Parsed(LIBUSB_ERROR_IO, [])
            case Nothing => all == Parsed(parsed, done)
            case Setting(len, alt, stop) =>
              var next := buffer[parsed + len..];
              all == if stop || !AnotherSetting(next, b[2]) then Parsed(parsed + len, done + [alt])
                     else After(parsed + len, done + [alt], UsbDescriptor.ParseInterface(next))
  {
    hide ParseTurn, AnotherSetting;
    var b := buffer[parsed..];
    match ParseTurn(b)
    case Fault =>
    case Nothing =>
    case Setting(len, alt, stop) =>
      assert b[len..] == buffer[parsed + len..];
      AfterAfter(parsed, done, len, alt, UsbDescriptor.ParseInterface(buffer[parsed + len..]));
  }

  /** parse_interface (216-360). */
  method ParseInterface(buffer: seq<Byte>) returns (r: int, altsetting: seq<AltSetting>)
    ensures Parsed(r, altsetting) == UsbDescriptor.ParseInterface(buffer)
  {
    hide ParseTurn, UsbDescriptor.ParseInterface;
    var parsed: nat, size: nat := 0, |buffer|;
    var interface_number := -1;
    altsetting := [];
    assert buffer[0..] == buffer;
    while size >= INTERFACE_DESC_LENGTH
      invariant parsed + size == |buffer|
      invariant interface_number == -1 || AnotherSetting(buffer[parsed..], interface_number)
      invariant UsbDescriptor.ParseInterface(buffer)
             == After(parsed, altsetting, UsbDescriptor.ParseInterface(buffer[parsed..]))
      decreases size
    {
      InterfaceStep(buffer, parsed, altsetting);
      var t := ParseSetting(buffer[parsed..]);
      match t {
        case Fault =>
          return LIBUSB_ERROR_IO, [];
        case Nothing =>
          return parsed, altsetting;
        case Setting(len, ifp, stop) =>
          altsetting := altsetting + [ifp];
          if interface_number == -1 {
            interface_number := ifp.bInterfaceNumber;
          }
          parsed := parsed + len;
          size := size - len;
          if stop || size < INTERFACE_DESC_LENGTH || buffer[parsed + 1] != DT_INTERFACE ||
             buffer[parsed + 2] != interface_number
          {
            return parsed, altsetting;
          }
      }
    }
    TooShort(buffer[parsed..]);
    return parsed, altsetting;
  }

  lemma TooShort(b: seq<Byte>)
    requires |b| < INTERFACE_DESC_LENGTH
    ensures UsbDescriptor.ParseInterface(b) == Parsed(0, [])
  {
  }

  /** The body found when `interfaces` have been collected already and the rest of the loop finds `rest`. */
  ghost function BodyAfter(interfaces: seq<seq<AltSetting>>, rest: Body): Body {
    if rest.r < 0 then rest else Body(rest.r, interfaces + rest.interfaces, rest.extra)
  }

  lemma BodyStep(b: seq<Byte>, n: nat, done: seq<seq<AltSetting>>, extra: seq<Byte>)
    ensures var all := BodyAfter(done, ParseBody(b, n, extra));
            if n == 0 then all == Body(|b|, done, extra)
            else
              var s := ScanExtras(b);
              var kept := if extra == [] then b[..s.len] else extra;
              var p := UsbDescriptor.ParseInterface(b[s.len..]);
              match s.ending
              case Bad => all == Body(LIBUSB_ERROR_IO, [], [])
              case Short => all == Body(|b| - s.len, done, extra)
              case Done =>
                if p.r < 0 then all == Body(LIBUSB_ERROR_IO, [], [])
                else if p.r == 0 then all == Body(|b| - s.len, done, kept)
                else all == BodyAfter(done + [p.value], ParseBody(b[s.len..][p.r..], n - 1, kept))
  {
    hide UsbDescriptor.ParseInterface, ScanExtras;
    assert done + [] == done;
    if n > 0 {
      var s := ScanExtras(b);
      var p := UsbDescriptor.ParseInterface(b[s.len..]);
      if s.ending.Done? && p.r > 0 {
        var kept := if extra == [] then b[..s.len] else extra;
        var others := ParseBody(b[s.len..][p.r..], n - 1, kept).interfaces;
        assert done + ([p.value] + others) == done + [p.value] + others;
      }
    }
  }

  /** The interface loop of parse_configuration (421-486); `size` is what is left of the buffer. */
  method ParseInterfaces(buffer: seq<Byte>, bNumInterfaces: nat)
    returns (size: int, interface: seq<seq<AltSetting>>, extra: seq<Byte>)
    ensures Body(size, interface, extra) == ParseBody(buffer, bNumInterfaces, [])
  {
    hide UsbDescriptor.ParseInterface, ScanExtras, ParseBody;
    var b := buffer;
    interface, extra := [], [];
    var i := 0;
    BodyStart(ParseBody(buffer, bNumInterfaces, []));
    while i < bNumInterfaces
      invariant i <= bNumInterfaces
      invariant ParseBody(buffer, bNumInterfaces, [])
             == BodyAfter(interface, ParseBody(b, bNumInterfaces - i, extra))
    {
      BodyStep(b, bNumInterfaces - i, interface, extra);
      var s := SkipUnknown(b);
      if s.ending.Bad? {
        return LIBUSB_ERROR_IO, [], [];
      } else if s.ending.Short? {
        return |b| - s.len, interface, extra;
      }
      if |extra| == 0 {
        extra := b[..s.len];
      }
      b := b[s.len..];
      var r, altsetting := ParseInterface(b);
      if r < 0 {
        return LIBUSB_ERROR_IO, [], [];
      }
      if r == 0 {
        return |b|, interface, extra;
      }
      interface := interface + [altsetting];
      b := b[r..];
      i := i + 1;
    }
    BodyStep(b, 0, interface, extra);
    return |b|, interface, extra;
  }

  lemma BodyStart(p: Body)
    ensures BodyAfter([], p) == p
  {
    assert [] + p.interfaces == p.interfaces;
  }

  /** parse_configuration (375-491): what is left of the buffer, and the configuration. */
  method ParseConfiguration(buffer: seq<Byte>) returns (r: int, config: Config)
    ensures Parsed(r, config) == UsbDescriptor.ParseConfiguration(buffer)
  {
    hide ParseBody, FormatWidth, Fields, Word16;
    if |buffer| < CONFIG_DESC_LENGTH {
      return LIBUSB_ERROR_IO, NoConfig;
    }
    ConfigFormat(buffer);
    var _, f := UsbiParseDescriptor(buffer, "bbwbbbbb");
    if f[1] != DT_CONFIG || f[0] < CONFIG_DESC_LENGTH || f[0] > |buffer| || f[3] > USB_MAXINTERFACES {
      return LIBUSB_ERROR_IO, NoConfig;
    }
    var size, interface, extra := ParseInterfaces(buffer[f[0]..], f[3]);
    if size < 0 {
      return LIBUSB_ERROR_IO, NoConfig;
    }
    return size, Config(f[0], f[1], f[2], |interface|, f[4], f[5], f[6], f[7], interface, extra);
  }
}
