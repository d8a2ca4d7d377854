/**
 Connection handles written as comma-separated key=value text and read back
 (ConnectionRegistry/ConnectionHandle.cpp 20-104, on a Unix-like system).
 */
module ConnectionHandle {

  /** The fields of a handle. An empty string and index -1 are the defaults. */
  datatype Handle = Handle(moduleName: string, media: string, name: string, addr: string, serial: string, index: int)

  const DEFAULT: Handle := Handle("", "", "", "", "", -1)

  // ------------------------------------------------------------ trimming

  predicate IsSpace(c: char) {
    c == ' ' || c == '\t' || c == '\n' || c == '\r' || c == '\U{0B}' || c == '\U{0C}'
  }

  /** Tab, line feed, vertical tab, form feed, carriage return and blank. */
  lemma SpaceIff(c: char)
    ensures IsSpace(c) <==> 9 <= c as int <= 13 || c as int == 32
  {
  }

  function TrimLeft(s: string): string {
    if s != "" && IsSpace(s[0]) then TrimLeft(s[1..]) else s
  }

  function TrimRight(s: string): string {
    if s != "" && IsSpace(s[|s| - 1]) then TrimRight(s[..|s| - 1]) else s
  }

  function Trimmed(s: string): string {
    TrimRight(TrimLeft(s))
  }

  /** No white space at either end. */
  predicate IsTrimmed(s: string) {
    s == "" || (!IsSpace(s[0]) && !IsSpace(s[|s| - 1]))
  }

  /** trim (20-26). */
  method Trim(s: string) returns (out: string)
    ensures out == Trimmed(s)
    ensures IsTrimmed(out)
  {
    out := s;
    while out != "" && IsSpace(out[0])
      invariant TrimLeft(out) == TrimLeft(s)
      decreases |out|
    {
      out := out[1..];
    }
    ghost var left := out;
    while out != "" && IsSpace(out[|out| - 1])
      invariant TrimRight(out) == TrimRight(left)
      invariant out == "" || !IsSpace(out[0])
      decreases |out|
    {
      out := out[..|out| - 1];
    }
  }

  // ------------------------------------------------------------ reading pairs

  function Put(kwmap: map<string, string>, key: string, val: string): map<string, string> {
    if Trimmed(key) == "" then kwmap else kwmap[Trimmed(key) := Trimmed(val)]
  }

  /** What the loop at 33-57 makes of the characters still to come. */
  function Scan(rest: string, inKey: bool, key: string, val: string, kwmap: map<string, string>): map<string, string>
    decreases |rest|
  {
    if rest == "" then kwmap
    else
      var ch := rest[0];
      var inKey' := if inKey then ch != '=' else ch == ',';
      var key' := if inKey && ch != '=' && ch != ',' then key + [ch] else key;
      var val' := if !inKey && ch != ',' then val + [ch] else val;
      if (inKey' && val' != "") || |rest| == 1 then Scan(rest[1..], inKey', "", "", Put(kwmap, key', val'))
      else Scan(rest[1..], inKey', key', val', kwmap)
  }

  /** argsToMap (28-59). */
  method ArgsToMap(args: string) returns (kwmap: map<string, string>)
    ensures kwmap == Scan(args, true, "", "", map[])
  {
    kwmap := map[];
    var inKey, key, val := true, "", "";
    var i := 0;
    assert args[0..] == args;
    while i < |args|
      invariant i <= |args|
      invariant Scan(args[i..], inKey, key, val, kwmap) == Scan(args, true, "", "", map[])
    {
      var ch := args[i];
      assert args[i..][0] == ch && args[i..][1..] == args[i + 1..];
      if inKey {
        if ch == '=' {
          inKey := false;
        } else if ch == ',' {
          inKey := true;
        } else {
          key := key + [ch];
        }
      } else {
        if ch == ',' {
          inKey := true;
        } else {
          val := val + [ch];
        }
      }
      if (inKey && val != "") || i + 1 == |args| {
        key := Trim(key);
        val := Trim(val);
        if key != "" {
          kwmap := kwmap[key := val];
        }
        key := "";
        val := "";
      }
      i := i + 1;
    }
  }

  // ------------------------------------------------------------ numbers

  function DigitChar(d: nat): char
    requires d < 10
  {
    '0' + d as char
  }

  predicate IsDigit(c: char) {
    '0' <= c <= '9'
  }

  function Decimal(n: nat): string {
    if n < 10 then [DigitChar(n)] else Decimal(n / 10) + [DigitChar(n % 10)]
  }

  /** What the formatted print at 96 writes. */
  function Printed(n: int): string {
    if n < 0 then "-" + Decimal(-n) else Decimal(n)
  }

  /** The number spelled by the leading digits. */
  function LeadingNumber(s: string, soFar: nat): nat {
    if s != "" && IsDigit(s[0]) then LeadingNumber(s[1..], 10 * soFar + (s[0] as int - '0' as int)) else soFar
  }

  /** atoi: white space, a sign, digits. */
  function Atoi(s: string): int {
    var t := TrimLeft(s);
    var signed := t != "" && (t[0] == '-' || t[0] == '+');
    var n: int := LeadingNumber(if signed then t[1..] else t, 0);
    if t != "" && t[0] == '-' then -n else n
  }

  // ------------------------------------------------------------ handles

  function Lookup(kwmap: map<string, string>, key: string): string {
    if key in kwmap then kwmap[key] else ""
  }

  /** What the constructor at 70-84 reads from the pairs. */
  function FromMap(kwmap: map<string, string>): Handle {
    Handle(Lookup(kwmap, "module"), Lookup(kwmap, "media"), Lookup(kwmap, "name"), Lookup(kwmap, "addr"),
           Lookup(kwmap, "serial"), if "index" in kwmap then Atoi(kwmap["index"]) else -1)
  }

  /** The handle a text stands for. */
  function Parsed(args: string): Handle {
    FromMap(Scan("name=" + args, true, "", "", map[]))
  }

  function Entry(key: string, val: string): string {
    if val == "" then "" else ", " + key + "=" + val
  }

  /** The text of a handle, without the default fields. */
  function Serialized(h: Handle): string {
    h.name + Entry("media", h.media) + Entry("module", h.moduleName) + Entry("addr", h.addr) +
    Entry("serial", h.serial) + Entry("index", if h.index == -1 then "" else Printed(h.index))
  }

  class Connection {
    var moduleName: string
    var media: string
    var name: string
    var addr: string
    var serial: string
    var index: int

    ghost function Value(): Handle
      reads this
    {
      Handle(moduleName, media, name, addr, serial, index)
    }

    /** 64-68. */
    constructor ()
      ensures Value() == DEFAULT
    {
      moduleName, media, name, addr, serial, index := "", "", "", "", "", -1;
    }

    /** 70-84. */
    constructor FromText(args: string)
      ensures Value() == Parsed(args)
    {
      moduleName, media, name, addr, serial, index := "", "", "", "", "", -1;
      new;
      var kwmap := ArgsToMap("name=" + args);
      if "module" in kwmap { moduleName := kwmap["module"]; }
      if "media" in kwmap { media := kwmap["media"]; }
      if "name" in kwmap { name := kwmap["name"]; }
      if "addr" in kwmap { addr := kwmap["addr"]; }
      if "serial" in kwmap { serial := kwmap["serial"]; }
      if "index" in kwmap { index := Atoi(kwmap["index"]); }
    }

    /** serialize (86-104). */
    method Serialize() returns (out: string)
      ensures out == Serialized(Value())
    {
      hide Entry;
      out := name;
      out := AppendField(out, "media", media);
      out := AppendField(out, "module", moduleName);
      out := AppendField(out, "addr", addr);
      out := AppendField(out, "serial", serial);
      out := AppendField(out, "index", if index != -1 then Printed(index) else "");
    }
  }

  /** One of the lines 90-98: a field that has a value is appended to the text. */
  method AppendField(out0: string, key: string, val: string) returns (out: string)
    ensures out == out0 + Entry(key, val)
  {
    out := out0;
    if val != "" {
      out := out + (", " + key + "=" + val);
    }
  }

  lemma PrintedNotEmpty(n: int)
    ensures Printed(n) != ""
  {
  }
}
