/**
 Whether an alternate setting has as many endpoints as it says (descriptor.c 216-360). It does not when the bytes
 end inside a class or vendor descriptor right behind an interface descriptor that announces endpoints: the parser
 keeps the setting, with the count and without the endpoints, and find_endpoint (core.c 1003) relies on the count.
 */
module UsbCounts {
  import opened UsbDescriptor

  predicate Counted(alt: AltSetting) {
    alt.bNumEndpoints == |alt.endpoints|
  }

  ghost predicate AllCounted(alts: seq<AltSetting>) {
    forall i | 0 <= i < |alts| :: Counted(alts[i])
  }

  lemma TurnCountedIff(b: seq<Byte>)
    requires ParseTurn(b).Setting?
    ensures var t := ParseTurn(b); Counted(t.alt) <==> !t.stop || b[4] == 0
  {
    hide ScanExtras, ParseEndpoints;
  }

  /** A descriptor longer than the bytes there are. */
  predicate TooLong(b: seq<Byte>) {
    |b| >= DESC_HEADER_LENGTH && b[0] > |b|
  }

  lemma {:induction false} ShortEndsTooLong(b: seq<Byte>)
    requires ScanExtras(b).ending.Short?
    ensures TooLong(b[ScanExtras(b).len..])
    decreases |b|
  {
    if b[0] > |b| {
      assert b[0..] == b;
    } else {
      var next := b[b[0]..];
      ShortEndsTooLong(next);
      assert b[ScanExtras(b).len..] == next[ScanExtras(next).len..];
    }
  }

  // ------------------------------------------------------------ interfaces

  /** The bytes end as described behind one of the interface's settings. */
  predicate InterfaceCut(b: seq<Byte>)
    decreases |b|
  {
    match ParseTurn(b)
    case Fault => false
    case Nothing => false
    case Setting(len, alt, stop) =>
      if stop then b[4] > 0 else AnotherSetting(b[len..], b[2]) && InterfaceCut(b[len..])
  }

  /** Every setting of an interface has the endpoints it counts, but for the last one if the bytes are cut there; what
      is left then begins with a descriptor longer than itself. */
  lemma {:induction false} InterfaceCountedIff(b: seq<Byte>)
    requires ParseInterface(b).r > 0
    ensures var p := ParseInterface(b);
            && p.value != [] && AllCounted(p.value[..|p.value| - 1])
            && (Counted(p.value[|p.value| - 1]) <==> !InterfaceCut(b))
            && (InterfaceCut(b) ==> TooLong(b[p.r..]))
    decreases |b|
  {
    hide ParseTurn, AnotherSetting, Counted;
    TurnCountedIff(b);
    TurnStops(b);
    var p, t := ParseInterface(b), ParseTurn(b);
    var next := b[t.len..];
    if t.stop || !AnotherSetting(next, b[2]) {
      assert p.value == [t.alt];
    } else {
      var others := ParseInterface(next);
      assert p.value == [t.alt] + others.value;
      if others.r > 0 {
        InterfaceCountedIff(next);
        assert p.value[..|p.value| - 1] == [t.alt] + others.value[..|others.value| - 1];
        assert b[p.r..] == next[others.r..];
      }
    }
  }

  lemma TurnStops(b: seq<Byte>)
    requires ParseTurn(b).Setting?
    ensures ParseTurn(b).stop ==> TooLong(b[ParseTurn(b).len..])
  {
    hide ScanExtras, ParseEndpoints, TooLong;
    var rest := b[b[0]..];
    if ParseTurn(b).stop {
      ShortEndsTooLong(rest);
      assert b[ParseTurn(b).len..] == rest[ScanExtras(rest).len..];
    }
  }

  // ------------------------------------------------------------ configurations

  ghost predicate AllInterfacesCounted(interfaces: seq<seq<AltSetting>>) {
    forall i | 0 <= i < |interfaces| :: AllCounted(interfaces[i])
  }

  /** The bytes end as described in one of the next n interfaces. */
  predicate BodyCut(b: seq<Byte>, n: nat)
    decreases n
  {
    n > 0 &&
    var s := ScanExtras(b);
    var rest := b[s.len..];
    s.ending.Done? &&
    var p := ParseInterface(rest);
    p.r > 0 && (InterfaceCut(rest) || BodyCut(rest[p.r..], n - 1))
  }

  lemma NothingAfterTooLong(b: seq<Byte>, n: nat, extra: seq<Byte>)
    requires TooLong(b) && ParseBody(b, n, extra).r >= 0
    ensures ParseBody(b, n, extra).interfaces == [] && ParseBody(b, n, extra).r == |b| && !BodyCut(b, n)
  {
    assert b[0..] == b;
  }

  /** Only the last setting of the last interface may lack endpoints. */
  ghost predicate AllButLastCounted(interfaces: seq<seq<AltSetting>>) {
    interfaces != [] &&
    var last := |interfaces| - 1;
    AllInterfacesCounted(interfaces[..last]) && ButLastCounted(interfaces[last])
  }

  ghost predicate ButLastCounted(alts: seq<AltSetting>) {
    alts != [] && AllCounted(alts[..|alts| - 1])
  }

  lemma OneMoreInterface(first: seq<AltSetting>, others: seq<seq<AltSetting>>)
    ensures AllInterfacesCounted([first] + others) <==> AllCounted(first) && AllInterfacesCounted(others)
    ensures AllCounted(first) && AllButLastCounted(others) ==> AllButLastCounted([first] + others)
    ensures ButLastCounted(first) ==> AllButLastCounted([first])
  {
    hide AllCounted;
    var all := [first] + others;
    assert all[0] == first && forall i | 0 <= i < |others| :: all[i + 1] == others[i];
    if others != [] {
      assert all[..|others|] == [first] + others[..|others| - 1];
    }
    assert [first][0] == first;
  }

  lemma BodySteps(b: seq<Byte>, n: nat, extra: seq<Byte>)
    requires ParseBody(b, n, extra).r >= 0
    ensures var s := ScanExtras(b); var rest := b[s.len..]; var p := ParseBody(b, n, extra);
            if n == 0 || !s.ending.Done? || ParseInterface(rest).r <= 0 then p.interfaces == [] && !BodyCut(b, n)
            else
              var first := ParseInterface(rest);
              var next, kept := rest[first.r..], if extra == [] then b[..s.len] else extra;
              var others := ParseBody(next, n - 1, kept);
              && others.r == p.r >= 0 && p.interfaces == [first.value] + others.interfaces
              && (BodyCut(b, n) <==> InterfaceCut(rest) || BodyCut(next, n - 1))
  {
    hide ScanExtras, ParseInterface, InterfaceCut;
  }

  /** The same for the interfaces of a configuration: only the last setting of the last one can be cut. */
  lemma {:induction false} BodyCountedIff(b: seq<Byte>, n: nat, extra: seq<Byte>)
    requires ParseBody(b, n, extra).r >= 0
    ensures var p := ParseBody(b, n, extra);
            && (AllInterfacesCounted(p.interfaces) <==> !BodyCut(b, n))
            && (BodyCut(b, n) ==> AllButLastCounted(p.interfaces) && TooLong(b[|b| - p.r..]))
    decreases n
  {
    hide ScanExtras, ParseInterface, ParseBody, InterfaceCut, AllCounted, TooLong, BodyCut, AllButLastCounted,
         AllInterfacesCounted, ButLastCounted;
    BodySteps(b, n, extra);
    var s := ScanExtras(b);
    var rest := b[s.len..];
    if n == 0 || !s.ending.Done? || ParseInterface(rest).r <= 0 {
      assert AllInterfacesCounted([]) by { NoneCounted(); }
    } else {
      var first := ParseInterface(rest);
      var kept := if extra == [] then b[..s.len] else extra;
      var next := rest[first.r..];
      var others := ParseBody(next, n - 1, kept);
      InterfaceCounted(rest);
      OneMoreInterface(first.value, others.interfaces);
      if InterfaceCut(rest) {
        NothingAfterTooLong(next, n - 1, kept);
        assert b[|b| - others.r..] == next;
        assert [first.value] + [] == [first.value];
      } else {
        BodyCountedIff(next, n - 1, kept);
        assert b[|b| - others.r..] == next[|next| - others.r..];
      }
    }
  }

  lemma NoneCounted()
    ensures AllInterfacesCounted([])
  {
  }

  lemma InterfaceCounted(b: seq<Byte>)
    requires ParseInterface(b).r > 0
    ensures var p := ParseInterface(b);
            && ButLastCounted(p.value) && (AllCounted(p.value) <==> !InterfaceCut(b))
            && (InterfaceCut(b) ==> TooLong(b[p.r..]))
  {
    hide ParseInterface, InterfaceCut, AllCounted, Counted, TooLong;
    InterfaceCountedIff(b);
    LastCounted(ParseInterface(b).value);
  }

  lemma LastCounted(alts: seq<AltSetting>)
    requires alts != [] && AllCounted(alts[..|alts| - 1])
    ensures AllCounted(alts) <==> Counted(alts[|alts| - 1])
  {
    hide Counted;
    var early := alts[..|alts| - 1];
    assert forall i | 0 <= i < |early| :: alts[i] == early[i];
  }

  /** On every buffer that is parsed: each alternate setting has the endpoints it counts exactly when the bytes are not
      cut short behind an interface descriptor; a cut leaves bytes over, which say they are more than there are. */
  lemma ConfigCountedIff(b: seq<Byte>)
    requires ParseConfiguration(b).r >= 0
    ensures var p, cut := ParseConfiguration(b), BodyCut(b[b[0]..], b[4]);
            && (AllInterfacesCounted(p.value.interfaces) <==> !cut)
            && (cut ==> AllButLastCounted(p.value.interfaces) && TooLong(b[|b| - p.r..]))
  {
    hide ParseBody, BodyCut, TooLong, AllInterfacesCounted, AllButLastCounted;
    BodyCountedIff(b[b[0]..], b[4], []);
    var r := ParseConfiguration(b).r;
    assert b[|b| - r..] == b[b[0]..][|b| - b[0] - r..];
  }

  /** A configuration of one interface that announces one endpoint, cut two bytes into a class descriptor of five. */
  lemma EndpointMissing()
    ensures var b: seq<Byte> := [9, 2, 20, 0, 1, 1, 0, 0, 0, 9, 4, 0, 0, 1, 0, 0, 0, 0, 5, 0x24];
            var p := ParseConfiguration(b);
            && p.r == 2 && |p.value.interfaces| == 1 && |p.value.interfaces[0]| == 1
            && p.value.interfaces[0][0].bNumEndpoints == 1 && p.value.interfaces[0][0].endpoints == []
  {
    var b: seq<Byte> := [9, 2, 20, 0, 1, 1, 0, 0, 0, 9, 4, 0, 0, 1, 0, 0, 0, 0, 5, 0x24];
    var body: seq<Byte> := [9, 4, 0, 0, 1, 0, 0, 0, 0, 5, 0x24];
    var left: seq<Byte> := [5, 0x24];
    assert b[9..] == body && body[9..] == left && body[0..] == body;
    assert ScanExtras(left) == Scan(0, Short) && ScanExtras(body) == Scan(0, Done);
    assert ParseTurn(body).Setting? && ParseTurn(body).stop && ParseTurn(body).len == 9;
    assert ParseInterface(body).r == 9 && |ParseInterface(body).value| == 1;
    assert ParseBody(left, 0, []).r == 2;
    assert ParseBody(body, 1, []).r == 2;
  }

  // ------------------------------------------------------------ the limits

  /** An interface descriptor that announces more than 32 endpoints is an error, however many bytes follow. */
  lemma TooManyEndpoints(b: seq<Byte>)
    requires |b| >= 9 && b[1] == 4 && 9 <= b[0] <= |b|
    ensures b[4] > 32 ==> ParseTurn(b).Fault? && ParseInterface(b).r == -1
    ensures !ParseTurn(b).Nothing?
  {
    hide ScanExtras, ParseEndpoints;
  }

  /** And so is a configuration of more than 32 interfaces. */
  lemma TooManyInterfaces(b: seq<Byte>)
    requires |b| >= 9 && b[4] > 32
    ensures ParseConfiguration(b).r == -1
  {
  }
}
