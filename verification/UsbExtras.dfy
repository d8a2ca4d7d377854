/**
 `parse_configuration` keeps only the first run of unknown descriptors it meets between interfaces, and a note
 in the source (descriptor.c 461) asks for later runs to be appended. No later run can exist: the interface
 parser has already passed over every unknown descriptor behind its last endpoint, so appending changes nothing.
 */
module UsbExtras {
  import opened UsbDescriptor

  /** Nothing more for a scan to pass over. */
  ghost predicate Scanned(b: seq<Byte>) {
    ScanExtras(b).len == 0
  }

  lemma {:induction false} ScanTwice(b: seq<Byte>)
    ensures Scanned(b[ScanExtras(b).len..])
    decreases |b|
  {
    var s := ScanExtras(b);
    if s.len == 0 {
      assert b[0..] == b;
    } else {
      var next := b[b[0]..];
      ScanTwice(next);
      assert b[s.len..] == next[ScanExtras(next).len..];
    }
  }

  lemma EndpointLeavesNoUnknowns(b: seq<Byte>)
    requires ParseEndpoint(b).r > 0
    ensures Scanned(b[ParseEndpoint(b).r..])
  {
    hide ScanExtras, EndpointFields;
    var rest := b[b[0]..];
    ScanTwice(rest);
    assert rest[ScanExtras(rest).len..] == b[ParseEndpoint(b).r..];
  }

  lemma {:induction false} EndpointsLeaveNoUnknowns(b: seq<Byte>, n: nat)
    requires Scanned(b) && ParseEndpoints(b, n).r >= 0
    ensures Scanned(b[ParseEndpoints(b, n).r..])
    decreases n
  {
    hide ParseEndpoint, Scanned;
    assert b[0..] == b;
    if n > 0 && ParseEndpoint(b).r > 0 {
      var next := b[ParseEndpoint(b).r..];
      EndpointLeavesNoUnknowns(b);
      EndpointsLeaveNoUnknowns(next, n - 1);
      assert next[ParseEndpoints(next, n - 1).r..] == b[ParseEndpoints(b, n).r..];
    }
  }

  lemma SettingLeavesNoUnknowns(b: seq<Byte>)
    requires ParseTurn(b).Setting?
    ensures Scanned(b[ParseTurn(b).len..])
  {
    hide ParseEndpoints, ScanExtras, Scanned, AltFields;
    var rest := b[b[0]..];
    var s := ScanExtras(rest);
    var behind := rest[s.len..];
    ScanTwice(rest);
    assert behind == b[b[0] + s.len..];
    if s.ending.Done? {
      EndpointsLeaveNoUnknowns(behind, b[4]);
      assert behind[ParseEndpoints(behind, b[4]).r..] == b[ParseTurn(b).len..];
    }
  }

  lemma {:induction false} InterfaceLeavesNoUnknowns(b: seq<Byte>)
    requires ParseInterface(b).r > 0
    ensures Scanned(b[ParseInterface(b).r..])
    decreases |b|
  {
    hide ParseTurn, Scanned, AnotherSetting;
    SettingLeavesNoUnknowns(b);
    var t := ParseTurn(b);
    var next := b[t.len..];
    if !t.stop && AnotherSetting(next, b[2]) && ParseInterface(next).r > 0 {
      InterfaceLeavesNoUnknowns(next);
      assert next[ParseInterface(next).r..] == b[ParseInterface(b).r..];
    }
  }

  /** The loop at descriptor.c 421-486 as the note wants it: every run of unknown descriptors is appended. */
  function AppendingBody(b: seq<Byte>, n: nat, extra: seq<Byte>): Body
    decreases n
  {
    if n == 0 then Body(|b|, [], extra)
    else
      var s := ScanExtras(b);
      var rest := b[s.len..];
      match s.ending
      case Bad => Body(LIBUSB_ERROR_IO, [], [])
      case Short => Body(|rest|, [], extra)
      case Done =>
        var kept := extra + b[..s.len];
        var p := ParseInterface(rest);
        if p.r < 0 then Body(LIBUSB_ERROR_IO, [], [])
        else if p.r == 0 then Body(|rest|, [], kept)
        else
          var others := AppendingBody(rest[p.r..], n - 1, kept);
          if others.r < 0 then others
          else Body(others.r, [p.value] + others.interfaces, others.extra)
  }

  lemma {:induction false} AppendingFromScanned(b: seq<Byte>, n: nat, extra: seq<Byte>)
    requires extra == [] || Scanned(b)
    ensures ParseBody(b, n, extra) == AppendingBody(b, n, extra)
    decreases n
  {
    hide ParseInterface, ScanExtras;
    if n == 0 {
    } else {
      var s := ScanExtras(b);
      var kept := if extra == [] then b[..s.len] else extra;
      assert kept == extra + b[..s.len];
      var rest := b[s.len..];
      var p := ParseInterface(rest);
      if p.r > 0 {
        InterfaceLeavesNoUnknowns(rest);
        AppendingFromScanned(rest[p.r..], n - 1, kept);
      }
    }
  }

  /** On every buffer, keeping the first run of unknown descriptors is the same as appending them all. */
  lemma FirstRunIsAll(b: seq<Byte>, n: nat)
    ensures ParseBody(b, n, []) == AppendingBody(b, n, [])
  {
    AppendingFromScanned(b, n, []);
  }
}
