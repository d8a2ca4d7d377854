/**
 A handle read back from its own text is the same handle exactly when its fields are trimmed and free of commas and it
 has a name or is the default handle.
 Without a name, the first field that follows is lost: after "name=" the comma finds the value still empty, so
 the key is kept and the next key is appended to it (ConnectionHandle.cpp 48).
 */
module HandleRoundTrip {
  import opened ConnectionHandle

  /** What a field may hold: no comma, no white space at the ends. */
  predicate GoodField(s: string) {
    IsTrimmed(s) && ',' !in s
  }

  predicate GoodFields(h: Handle) {
    GoodField(h.moduleName) && GoodField(h.media) && GoodField(h.name) && GoodField(h.addr) && GoodField(h.serial)
  }

  predicate GoodHandle(h: Handle) {
    GoodFields(h) && IndexFits(h)
  }

  /** A 32-bit index. */
  predicate IndexFits(h: Handle) {
    -0x8000_0000 <= h.index < 0x8000_0000
  }

  // ------------------------------------------------------------ white space

  lemma TrimmedAlready(s: string)
    requires IsTrimmed(s)
    ensures Trimmed(s) == s && TrimLeft(s) == s
  {
  }

  lemma TrimmedSpace(s: string)
    requires IsTrimmed(s)
    ensures Trimmed(" " + s) == s
  {
    assert (" " + s)[1..] == s;
    TrimmedAlready(s);
  }

  // ------------------------------------------------------------ numbers

  lemma {:induction false} LeadingSnoc(s: string, c: char, soFar: nat)
    requires IsDigit(c) && forall i :: 0 <= i < |s| ==> IsDigit(s[i])
    ensures LeadingNumber(s + [c], soFar) == 10 * LeadingNumber(s, soFar) + (c as int - '0' as int)
    decreases |s|
  {
    if s == "" {
      assert (s + [c])[1..] == "";
    } else {
      assert (s + [c])[1..] == s[1..] + [c];
      LeadingSnoc(s[1..], c, 10 * soFar + (s[0] as int - '0' as int));
    }
  }

  lemma {:induction false} DecimalRoundTrip(n: nat)
    ensures Decimal(n) != "" && forall i :: 0 <= i < |Decimal(n)| ==> IsDigit(Decimal(n)[i])
    ensures LeadingNumber(Decimal(n), 0) == n
    decreases n
  {
    if n < 10 {
      assert Decimal(n)[1..] == "";
    } else {
      DecimalRoundTrip(n / 10);
      LeadingSnoc(Decimal(n / 10), DigitChar(n % 10), 0);
    }
  }

  /** Reading a printed number gives it back, and its text is a good field. */
  lemma PrintedRoundTrip(n: int)
    ensures Printed(n) != "" && GoodField(Printed(n))
    ensures Atoi(Printed(n)) == n
  {
    hide Decimal, LeadingNumber;
    var d := Decimal(if n < 0 then -n else n);
    DecimalRoundTrip(if n < 0 then -n else n);
    assert n < 0 ==> Printed(n)[1..] == d;
    TrimmedAlready(Printed(n));
  }

  // ------------------------------------------------------------ scanning

  lemma {:induction false} KeyChars(k: string, rest: string, key: string, m: map<string, string>)
    requires '=' !in k && ',' !in k && rest != ""
    ensures Scan(k + rest, true, key, "", m) == Scan(rest, true, key + k, "", m)
    decreases |k|
  {
    if k == "" {
      assert k + rest == rest && key + k == key;
    } else {
      assert (k + rest)[1..] == k[1..] + rest;
      KeyChars(k[1..], rest, key + [k[0]], m);
      assert key + [k[0]] + k[1..] == key + k;
    }
  }

  lemma EqualsSign(rest: string, key: string, m: map<string, string>)
    requires rest != ""
    ensures Scan("=" + rest, true, key, "", m) == Scan(rest, false, key, "", m)
  {
    assert ("=" + rest)[1..] == rest;
  }

  lemma {:induction false} ValueChars(v: string, rest: string, key: string, val: string, m: map<string, string>)
    requires ',' !in v && rest != ""
    ensures Scan(v + rest, false, key, val, m) == Scan(rest, false, key, val + v, m)
    decreases |v|
  {
    if v == "" {
      assert v + rest == rest && val + v == val;
    } else {
      assert (v + rest)[1..] == v[1..] + rest;
      ValueChars(v[1..], rest, key, val + [v[0]], m);
      assert val + [v[0]] + v[1..] == val + v;
    }
  }

  /** The last value ends with the text. */
  lemma LastValue(v: string, key: string, m: map<string, string>)
    requires ',' !in v && v != ""
    ensures Scan(v, false, key, "", m) == Put(m, key, v)
  {
    hide Put;
    var n := |v| - 1;
    assert v == v[..n] + [v[n]];
    ValueChars(v[..n], [v[n]], key, "", m);
    assert "" + v[..n] == v[..n];
    assert [v[n]][1..] == "";
  }

  /** A value that a comma ends. */
  lemma CommaAfterValue(v: string, rest: string, key: string, m: map<string, string>)
    requires ',' !in v && v != "" && rest != ""
    ensures Scan(v + ("," + rest), false, key, "", m) == Scan(rest, true, "", "", Put(m, key, v))
  {
    hide Put;
    ValueChars(v, "," + rest, key, "", m);
    assert "" + v == v;
    assert ("," + rest)[1..] == rest;
  }

  /** A comma that finds the value empty does not end the pair: the key is kept. */
  lemma CommaWithoutValue(rest: string, key: string, m: map<string, string>)
    requires rest != ""
    ensures Scan("," + rest, false, key, "", m) == Scan(rest, true, key, "", m)
  {
    assert ("," + rest)[1..] == rest;
  }

  // ------------------------------------------------------------ lists of entries

  datatype Pair = Pair(key: string, val: string)

  predicate GoodKey(k: string) {
    k != "" && IsTrimmed(k) && '=' !in k && ',' !in k
  }

  ghost predicate GoodPairs(ps: seq<Pair>) {
    forall i :: 0 <= i < |ps| ==> GoodKey(ps[i].key) && GoodField(ps[i].val)
  }

  function Tail(ps: seq<Pair>): string {
    if ps == [] then "" else Entry(ps[0].key, ps[0].val) + Tail(ps[1..])
  }

  function PutAll(m: map<string, string>, ps: seq<Pair>): map<string, string>
    decreases |ps|
  {
    if ps == [] then m
    else PutAll(if ps[0].val == "" then m else m[ps[0].key := ps[0].val], ps[1..])
  }

  /** A key behind a comma and a blank, up to its value. */
  lemma KeyAndEquals(key: string, k: string, rest: string, m: map<string, string>)
    requires GoodKey(k) && rest != ""
    ensures Scan(" " + k + "=" + rest, true, key, "", m) == Scan(rest, false, key + (" " + k), "", m)
  {
    hide Scan;
    assert " " + k + "=" + rest == (" " + k) + ("=" + rest);
    KeyChars(" " + k, "=" + rest, key, m);
    EqualsSign(rest, key + (" " + k), m);
  }

  lemma TailStart(ps: seq<Pair>)
    requires ps != [] && ps[0].val != ""
    ensures Tail(ps) == "," + (" " + ps[0].key + "=" + (ps[0].val + Tail(ps[1..])))
  {
    assert "," + " " == ", ";
    Regroup(",", " ", ps[0].key, "=", ps[0].val, Tail(ps[1..]));
  }

  lemma TailSkip(ps: seq<Pair>, m: map<string, string>)
    requires ps != []
    ensures ps[0].val == "" ==> Tail(ps) == Tail(ps[1..])
    ensures PutAll(m, ps) == PutAll(if ps[0].val == "" then m else m[ps[0].key := ps[0].val], ps[1..])
  {
  }

  lemma TailEnds(m: map<string, string>)
    ensures Tail([]) == "" && PutAll(m, []) == m
  {
  }

  lemma RestGood(ps: seq<Pair>)
    requires GoodPairs(ps) && ps != []
    ensures GoodKey(ps[0].key) && IsTrimmed(ps[0].val) && ',' !in ps[0].val && GoodPairs(ps[1..])
  {
  }

  lemma Regroup(c: string, b: string, k: string, e: string, v: string, rest: string)
    ensures c + b + k + e + v + rest == c + (b + k + e + (v + rest))
  {
  }

  /** A value and the entries behind it. */
  lemma {:induction false} ScanEntries(v: string, ps: seq<Pair>, key: string, m: map<string, string>)
    requires v != "" && ',' !in v && GoodPairs(ps)
    ensures Scan(v + Tail(ps), false, key, "", m) == PutAll(Put(m, key, v), ps)
    decreases |ps|
  {
    hide Scan, Put, GoodKey, IsTrimmed, Tail, PutAll, GoodPairs;
    if ps == [] {
      TailEnds(Put(m, key, v));
      assert v + "" == v;
      LastValue(v, key, m);
    } else {
      var k, w, rest := ps[0].key, ps[0].val, Tail(ps[1..]);
      RestGood(ps);
      TailSkip(ps, Put(m, key, v));
      if w == "" {
        ScanEntries(v, ps[1..], key, m);
      } else {
        TailStart(ps);
        CommaAfterValue(v, " " + k + "=" + (w + rest), key, m);
        KeyAndEquals("", k, w + rest, Put(m, key, v));
        assert "" + (" " + k) == " " + k;
        ScanEntries(w, ps[1..], " " + k, Put(m, key, v));
        PutTrimmed(Put(m, key, v), k, w);
      }
    }
  }

  lemma PutTrimmed(m: map<string, string>, k: string, v: string)
    requires GoodKey(k) && IsTrimmed(v)
    ensures Put(m, " " + k, v) == m[k := v] && Put(m, k, v) == m[k := v]
  {
    TrimmedSpace(k);
    TrimmedAlready(k);
    TrimmedAlready(v);
  }

  /** The entries when nothing stands before them: the first key that has a value is joined to "name". */
  lemma {:induction false} ScanJoined(ps: seq<Pair>, m: map<string, string>) returns (j: nat)
    requires GoodPairs(ps) && Tail(ps) != ""
    ensures j < |ps| && ps[j].val != ""
    ensures Scan(Tail(ps), false, "name", "", m)
         == PutAll(Put(m, "name" + (" " + ps[j].key), ps[j].val), ps[j + 1..])
    decreases |ps|
  {
    hide Scan, Put, GoodKey, IsTrimmed, PutAll, Tail, GoodPairs;
    if ps == [] {
      TailEnds(m);
    } else {
      RestGood(ps);
      TailSkip(ps, m);
      if ps[0].val == "" {
        var tail := ps[1..];
        j := ScanJoined(tail, m);
        assert tail[j + 1..] == ps[j + 2..] && tail[j] == ps[j + 1];
        j := j + 1;
      } else {
        j := 0;
        var k, w, rest := ps[0].key, ps[0].val, Tail(ps[1..]);
        TailStart(ps);
        CommaWithoutValue(" " + k + "=" + (w + rest), "name", m);
        KeyAndEquals("name", k, w + rest, m);
        ScanEntries(w, ps[1..], "name" + (" " + k), m);
      }
    }
  }

  lemma {:induction false} NotPut(m: map<string, string>, ps: seq<Pair>, key: string)
    requires key !in m && forall i :: 0 <= i < |ps| ==> ps[i].key != key
    ensures key !in PutAll(m, ps)
    decreases |ps|
  {
    if ps == [] {
    } else {
      NotPut(if ps[0].val == "" then m else m[ps[0].key := ps[0].val], ps[1..], key);
    }
  }

  // ------------------------------------------------------------ handles

  function Entries(h: Handle): seq<Pair> {
    [Pair("media", h.media), Pair("module", h.moduleName), Pair("addr", h.addr), Pair("serial", h.serial),
     Pair("index", if h.index == -1 then "" else Printed(h.index))]
  }

  lemma FiveEntries(p: Pair, q: Pair, r: Pair, s: Pair, t: Pair, m: map<string, string>)
    ensures var ps := [p, q, r, s, t];
            && Tail(ps) == Entry(p.key, p.val) + (Entry(q.key, q.val) + (Entry(r.key, r.val) +
                           (Entry(s.key, s.val) + Entry(t.key, t.val))))
            && PutAll(m, ps) == PutOne(PutOne(PutOne(PutOne(PutOne(m, p.key, p.val), q.key, q.val), r.key, r.val),
                                              s.key, s.val), t.key, t.val)
  {
    hide Entry;
    NextEntry(p, [q, r, s, t], m);
    var m1 := PutOne(m, p.key, p.val);
    NextEntry(q, [r, s, t], m1);
    var m2 := PutOne(m1, q.key, q.val);
    NextEntry(r, [s, t], m2);
    var m3 := PutOne(m2, r.key, r.val);
    NextEntry(s, [t], m3);
    var m4 := PutOne(m3, s.key, s.val);
    NextEntry(t, [], m4);
    assert Entry(t.key, t.val) + "" == Entry(t.key, t.val);
    assert [p] + [q, r, s, t] == [p, q, r, s, t] && [q] + [r, s, t] == [q, r, s, t];
    assert [r] + [s, t] == [r, s, t] && [s] + [t] == [s, t] && [t] + [] == [t];
  }

  lemma NextEntry(p: Pair, ps: seq<Pair>, m: map<string, string>)
    ensures Tail([p] + ps) == Entry(p.key, p.val) + Tail(ps)
    ensures PutAll(m, [p] + ps) == PutAll(PutOne(m, p.key, p.val), ps)
  {
    assert ([p] + ps)[1..] == ps;
  }

  lemma SerializedTail(h: Handle)
    ensures Serialized(h) == h.name + Tail(Entries(h))
  {
    hide Entry, Printed, Tail;
    var ps := Entries(h);
    FiveEntries(ps[0], ps[1], ps[2], ps[3], ps[4], map[]);
    var a, b, c, d, e := Entry("media", h.media), Entry("module", h.moduleName), Entry("addr", h.addr),
                         Entry("serial", h.serial), Entry("index", ps[4].val);
    assert h.name + a + b + c + d + e == h.name + (a + (b + (c + (d + e))));
  }

  lemma EntriesGood(h: Handle)
    requires GoodHandle(h)
    ensures GoodPairs(Entries(h))
  {
    hide IsTrimmed, Printed;
    PrintedRoundTrip(h.index);
    assert IsTrimmed("") by { TrimmedWords(); }
    TrimmedWords();
  }

  lemma TrimmedWords()
    ensures IsTrimmed("") && IsTrimmed("media") && IsTrimmed("module") && IsTrimmed("addr")
    ensures IsTrimmed("serial") && IsTrimmed("index") && IsTrimmed("name")
  {
  }

  lemma NameFirst(rest: string)
    requires rest != ""
    ensures Scan("name=" + rest, true, "", "", map[]) == Scan(rest, false, "name", "", map[])
  {
    hide Scan;
    assert "name=" + rest == "name" + ("=" + rest);
    KeyChars("name", "=" + rest, "", map[]);
    assert "" + "name" == "name";
    EqualsSign(rest, "name", map[]);
  }

  lemma AllPut(h: Handle, m: map<string, string>)
    ensures PutAll(m, Entries(h)) == PutFive(m, h)
  {
    hide Printed, PutAll;
    var ps := Entries(h);
    FiveEntries(ps[0], ps[1], ps[2], ps[3], ps[4], m);
  }

  function PutOne(m: map<string, string>, key: string, val: string): map<string, string> {
    if val == "" then m else m[key := val]
  }

  function PutFive(m: map<string, string>, h: Handle): map<string, string> {
    PutOne(PutOne(PutOne(PutOne(PutOne(m, "media", h.media), "module", h.moduleName), "addr", h.addr),
                         "serial", h.serial), "index", if h.index == -1 then "" else Printed(h.index))
  }

  lemma NamedRoundTrip(h: Handle)
    requires GoodHandle(h) && h.name != ""
    ensures Parsed(Serialized(h)) == h
  {
    hide Scan, Entries, PutAll, Put, Printed, Atoi, Tail, Serialized;
    var tail := Tail(Entries(h));
    SerializedTail(h);
    EntriesGood(h);
    NameFirst(h.name + tail);
    ScanEntries(h.name, Entries(h), "name", map[]);
    PutTrimmed(map[], "name", h.name);
    AllPut(h, map["name" := h.name]);
    PrintedRoundTrip(h.index);
  }

  lemma DefaultRoundTrip()
    ensures Parsed(Serialized(DEFAULT)) == DEFAULT
  {
    hide Put;
    SerializedTail(DEFAULT);
    assert Tail(Entries(DEFAULT)) == "" by { NothingToSay(); }
    assert Serialized(DEFAULT) == "";
    assert "name=" + "" == "name" + "=";
    KeyChars("name", "=", "", map[]);
    assert "=" [1..] == "" && "" + "name" == "name";
    assert Scan("=", true, "name", "", map[]) == Put(map[], "name", "");
    assert Put(map[], "name", "") == map["name" := ""] by { PutTrimmed(map[], "name", ""); }
  }

  lemma NothingToSay()
    ensures Tail(Entries(DEFAULT)) == ""
  {
    var ps := Entries(DEFAULT);
    FiveEntries(ps[0], ps[1], ps[2], ps[3], ps[4], map[]);
  }

  lemma NoName(h: Handle)
    requires GoodHandle(h) && h.name == "" && h != DEFAULT
    ensures Parsed(Serialized(h)) != h
  {
    hide Scan, PutAll, Put, Printed, Atoi, Tail, Serialized, GoodPairs;
    var ps := Entries(h);
    SerializedTail(h);
    EntriesGood(h);
    assert h.name + Tail(ps) == Tail(ps);
    SomethingToSay(h);
    NameFirst(Tail(ps));
    var j := ScanJoined(ps, map[]);
    var key := ps[j].key;
    JoinedKey(key, ps[j].val);
    NotPut(Put(map[], "name" + (" " + key), ps[j].val), ps[j + 1..], key);
  }

  lemma SomethingToSay(h: Handle)
    requires h.name == "" && h != DEFAULT
    ensures Tail(Entries(h)) != ""
  {
    hide Tail, Printed, PutAll;
    var ps := Entries(h);
    FiveEntries(ps[0], ps[1], ps[2], ps[3], ps[4], map[]);
    PrintedNotEmpty(h.index);
  }

  /** The joined key is none of the keys the constructor looks for. */
  lemma JoinedKey(key: string, val: string)
    requires GoodKey(key)
    ensures key !in Put(map[], "name" + (" " + key), val)
  {
    var joined := "name" + (" " + key);
    assert joined[|joined| - 1] == key[|key| - 1] && joined[0] == 'n';
    TrimmedAlready(joined);
  }

  // ------------------------------------------------------------ what can be read at all

  lemma {:induction false} TrimLeftGood(s: string)
    requires ',' !in s
    ensures ',' !in TrimLeft(s) && (TrimLeft(s) == "" || !IsSpace(TrimLeft(s)[0]))
    decreases |s|
  {
    if s != "" && IsSpace(s[0]) {
      TrimLeftGood(s[1..]);
    } else {
    }
  }

  lemma {:induction false} TrimRightGood(s: string)
    requires ',' !in s && (s == "" || !IsSpace(s[0]))
    ensures GoodField(TrimRight(s))
    decreases |s|
  {
    if s != "" && IsSpace(s[|s| - 1]) {
      TrimRightGood(s[..|s| - 1]);
    } else {
    }
  }

  ghost predicate GoodValues(m: map<string, string>) {
    forall k | k in m :: GoodField(m[k])
  }

  lemma PutGood(m: map<string, string>, key: string, val: string)
    requires GoodValues(m) && ',' !in val
    ensures GoodValues(Put(m, key, val))
  {
    hide GoodField;
    TrimLeftGood(val);
    TrimRightGood(TrimLeft(val));
  }

  /** Every value the loop stores is trimmed and has no comma. */
  lemma {:induction false} ScanGood(rest: string, inKey: bool, key: string, val: string, m: map<string, string>)
    requires GoodValues(m) && ',' !in val
    ensures GoodValues(Scan(rest, inKey, key, val, m))
    decreases |rest|
  {
    hide GoodValues, Put;
    if rest == "" {
    } else {
      var ch := rest[0];
      var inKey' := if inKey then ch != '=' else ch == ',';
      var key' := if inKey && ch != '=' && ch != ',' then key + [ch] else key;
      var val' := if !inKey && ch != ',' then val + [ch] else val;
      if (inKey' && val' != "") || |rest| == 1 {
        PutGood(m, key', val');
        ScanGood(rest[1..], inKey', "", "", Put(m, key', val'));
      } else {
        ScanGood(rest[1..], inKey', key', val', m);
      }
    }
  }

  /** Whatever the text, the fields read from it are trimmed and have no comma. */
  lemma ParsedIsGood(args: string)
    ensures GoodFields(Parsed(args))
  {
    hide Scan, GoodField;
    assert GoodValues(map[]);
    ScanGood("name=" + args, true, "", "", map[]);
    assert GoodField("") by { NoCharacters(); }
  }

  lemma NoCharacters()
    ensures GoodField("")
  {
  }

  /** Reading a handle back from its text gives it back exactly when its fields are trimmed and have no comma and it
      has a name or is all defaults. */
  lemma RoundTripIff(h: Handle)
    requires IndexFits(h)
    ensures Parsed(Serialized(h)) == h <==> GoodFields(h) && (h.name != "" || h == DEFAULT)
  {
    hide Parsed, Serialized, GoodFields;
    ParsedIsGood(Serialized(h));
    if !GoodFields(h) {
    } else if h.name != "" {
      NamedRoundTrip(h);
    } else if h == DEFAULT {
      DefaultRoundTrip();
    } else {
      NoName(h);
    }
  }

  // ------------------------------------------------------------ a handle in full

  /** The text of a handle with all its fields, letter by letter; and it is read back from it. */
  lemma FullText()
    ensures var h := Handle("STREAM", "USB 3", "LimeSDR", "1d50", "90", 1024);
            && Serialized(h) == "LimeSDR, media=USB 3, module=STREAM, addr=1d50, serial=90, index=1024"
            && Parsed("LimeSDR, media=USB 3, module=STREAM, addr=1d50, serial=90, index=1024") == h
    ensures Printed(-12) == "-12" && Printed(0) == "0"
    ensures Atoi("-12") == -12 && Atoi(" +7 rest") == 7 && Atoi("none") == 0
  {
    hide Serialized, Parsed, GoodFields, Printed, Atoi;
    var h := Handle("STREAM", "USB 3", "LimeSDR", "1d50", "90", 1024);
    NumbersPrinted();
    NumbersRead();
    FullFieldsGood(h);
    FullTextIs(h);
    NamedRoundTrip(h);
  }

  lemma FullFieldsGood(h: Handle)
    requires h == Handle("STREAM", "USB 3", "LimeSDR", "1d50", "90", 1024)
    ensures GoodHandle(h)
  {
  }

  lemma FullTextIs(h: Handle)
    requires h == Handle("STREAM", "USB 3", "LimeSDR", "1d50", "90", 1024) && Printed(1024) == "1024"
    ensures Serialized(h) == "LimeSDR, media=USB 3, module=STREAM, addr=1d50, serial=90, index=1024"
  {
    hide Printed, Entry;
    FullEntries();
    assert "LimeSDR" + ", media=USB 3" == "LimeSDR, media=USB 3";
    assert "LimeSDR, media=USB 3" + ", module=STREAM" == "LimeSDR, media=USB 3, module=STREAM";
    assert "LimeSDR, media=USB 3, module=STREAM" + ", addr=1d50" == "LimeSDR, media=USB 3, module=STREAM, addr=1d50";
    assert "LimeSDR, media=USB 3, module=STREAM, addr=1d50" + ", serial=90"
        == "LimeSDR, media=USB 3, module=STREAM, addr=1d50, serial=90";
    assert "LimeSDR, media=USB 3, module=STREAM, addr=1d50, serial=90" + ", index=1024"
        == "LimeSDR, media=USB 3, module=STREAM, addr=1d50, serial=90, index=1024";
  }

  lemma FullEntries()
    ensures Entry("media", "USB 3") == ", media=USB 3" && Entry("module", "STREAM") == ", module=STREAM"
    ensures Entry("addr", "1d50") == ", addr=1d50" && Entry("serial", "90") == ", serial=90"
    ensures Entry("index", "1024") == ", index=1024"
  {
  }

  lemma NumbersPrinted()
    ensures Printed(1024) == "1024" && Printed(-12) == "-12" && Printed(0) == "0"
  {
    assert Decimal(1) == "1" && Decimal(10) == Decimal(1) + "0" && Decimal(102) == Decimal(10) + "2";
    assert Decimal(1024) == Decimal(102) + "4" && Decimal(12) == Decimal(1) + "2";
  }

  lemma NumbersRead()
    ensures Atoi("-12") == -12 && Atoi(" +7 rest") == 7 && Atoi("none") == 0
  {
    assert "-12"[1..] == "12" && "12"[1..] == "2" && "2"[1..] == "";
    assert LeadingNumber("2", 1) == LeadingNumber("", 12);
    assert " +7 rest"[1..] == "+7 rest" && "+7 rest"[1..] == "7 rest" && "7 rest"[1..] == " rest";
    assert TrimLeft(" +7 rest") == TrimLeft("+7 rest") == "+7 rest";
  }
}
