/**
 The body of an escrow request: printed by the recovery environment, parsed by the control plane.
 A `string` here holds one character for every byte of the text, as `str::find` and the quotes in it see it.
 */
module EscrowWire {
  import opened Bytes
  import opened DiskLayout
  import Utf8

  // ---------------------------------------------------------------- hexadecimal

  const DIGITS: string := "0123456789abcdef"

  function HexByte(b: byte): string {
    [DIGITS[b / 16], DIGITS[b % 16]]
  }

  function Hex(key: bytes): (s: string)
    ensures |s| == 2 * |key|
    decreases |key|
  {
    if key == [] then [] else HexByte(key[0]) + Hex(key[1..])
  }

  function Digit(c: char): Option<nat> {
    if '0' <= c <= '9' then Some(c as int - '0' as int)
    else if 'a' <= c <= 'f' then Some(c as int - 'a' as int + 10)
    else if 'A' <= c <= 'F' then Some(c as int - 'A' as int + 10)
    else None
  }

  /** `u8::from_str_radix` of two characters: a leading plus sign is allowed. */
  function FromRadix(a: char, b: char): Option<byte> {
    if Digit(b).None? then None
    else if a == '+' then Some(Digit(b).value)
    else if Digit(a).None? then None
    else Some(16 * Digit(a).value + Digit(b).value)
  }

  const SMALL: string := "0123456789abcdef"
  const CAPITAL: string := "0123456789ABCDEF"

  /** The digits, and no other characters. */
  lemma DigitIff(c: char, n: nat)
    ensures Digit(c) == Some(n) <==> n < 16 && (c == SMALL[n] || c == CAPITAL[n])
  {
    assert n < 16 ==> n in {0, 1, 2, 3, 4, 5, 6, 7} || n in {8, 9, 10, 11, 12, 13, 14, 15};
  }

  /**
   Two characters are a byte when both are digits, the first the high one, or a plus sign stands in front of a digit.
   */
  lemma RadixIff(a: char, b: char, n: byte)
    ensures FromRadix(a, b) == Some(n)
       <==> Digit(b) == Some(n % 16) && (if a == '+' then n < 16 else Digit(a) == Some(n / 16))
  {
    hide Digit;
    PlusIsNoDigit();
    if Digit(b).Some? { DigitsAreSmall(b); }
    if Digit(a).Some? { DigitsAreSmall(a); }
  }

  lemma PlusIsNoDigit()
    ensures Digit('+') == None
  {
  }

  lemma DigitsAreSmall(c: char)
    requires Digit(c).Some?
    ensures Digit(c).value < 16
  {
  }

  datatype HexResult = Read(key: bytes) | Broken
  {
    function After(key: bytes): HexResult {
      match this
      case Broken => Broken
      case Read(rest) => Read(key + rest)
    }

    lemma AfterBoth(k: bytes, l: bytes)
      ensures After(l).After(k) == After(k + l)
    {
      if Read? {
        assert k + (l + key) == k + l + key;
      }
    }

    lemma AfterEnds(k: bytes)
      ensures After([]) == this && Read([]).After(k) == Read(k)
    {
      if Read? {
        assert [] + key == key;
      }
    }
  }

  /** The byte behind every two digits. */
  function ParseHex(s: string): HexResult
    requires |s| % 2 == 0
    decreases |s|
  {
    if s == [] then Read([]) else
    match FromRadix(s[0], s[1])
    case None => Broken
    case Some(b) => ParseHex(s[2..]).After([b])
  }

  lemma DigitsParse(n: nat)
    requires n < 16
    ensures Digit(DIGITS[n]) == Some(n) && DIGITS[n] != '+' && DIGITS[n] != '"'
  {
    assert n in {0, 1, 2, 3, 4, 5, 6, 7} || n in {8, 9, 10, 11, 12, 13, 14, 15};
  }

  lemma HexByteParses(b: byte)
    ensures FromRadix(HexByte(b)[0], HexByte(b)[1]) == Some(b) && '"' !in HexByte(b)
  {
    DigitsParse(b / 16);
    DigitsParse(b % 16);
  }

  lemma {:induction false} HexParses(key: bytes)
    ensures ParseHex(Hex(key)) == Read(key) && '"' !in Hex(key)
    decreases |key|
  {
    hide FromRadix;
    if key != [] {
      HexByteParses(key[0]);
      HexParses(key[1..]);
      HexSplits(key);
      assert [key[0]] + key[1..] == key;
    }
  }

  lemma HexSplits(key: bytes)
    requires key != []
    ensures Hex(key)[0] == HexByte(key[0])[0] && Hex(key)[1] == HexByte(key[0])[1] && Hex(key)[2..] == Hex(key[1..])
  {
  }

  // ---------------------------------------------------------------- searching

  predicate At(s: string, pat: string, k: nat) {
    k + |pat| <= |s| && forall i :: 0 <= i < |pat| ==> s[k + i] == pat[i]
  }

  /** `find`: where a pattern first occurs. */
  function Find(s: string, pat: string): (r: Option<nat>)
    ensures r.Some? ==> At(s, pat, r.value) && forall j :: 0 <= j < r.value ==> !At(s, pat, j)
    ensures r.None? ==> forall j :: 0 <= j <= |s| ==> !At(s, pat, j)
    decreases |s|
  {
    if At(s, pat, 0) then Some(0)
    else if s == [] then None
    else
      assert forall j | 1 <= j <= |s| :: At(s, pat, j) ==> At(s[1..], pat, j - 1);
      match Find(s[1..], pat) case None => None case Some(k) => Some(k + 1)
  }

  /** What is behind the first occurrence of a pattern. */
  function Behind(s: string, pat: string): Option<string> {
    match Find(s, pat) case None => None case Some(k) => Some(s[k + |pat|..])
  }

  lemma BehindFirst(s: string, pat: string, k: nat)
    requires At(s, pat, k) && forall j :: 0 <= j < k ==> !At(s, pat, j)
    ensures Find(s, pat) == Some(k) && Behind(s, pat) == Some(s[k + |pat|..])
  {
    assert Find(s, pat).Some?;
  }

  /** A single character is found in front of the first place it stands. */
  lemma FindChar(a: string, c: char, b: string)
    requires c !in a
    ensures Find(a + [c] + b, [c]) == Some(|a|) && Behind(a + [c] + b, [c]) == Some(b)
  {
    hide Find;
    var s := a + [c] + b;
    forall j | 0 <= j < |a| ensures !At(s, [c], j) {
      assert s[j + 0] == a[j] != [c][0];
    }
    BehindFirst(s, [c], |a|);
    assert s[|a| + 1..] == b;
  }

  // ---------------------------------------------------------------- printing and parsing

  const HEAD: string := "{\"device_id\":\""
  const MIDDLE: string := "\",\"key\":\""
  const TAIL: string := "\"}"

  /** escrow.rs, `body`. */
  function Body(id: string, key: bytes): string {
    HEAD + id + MIDDLE + Hex(key) + TAIL
  }

  /** The text behind the next colon and the next quote, up to the quote after that. */
  function Quoted(s: string): (r: Option<string>)
    ensures r.Some? ==> '"' !in r.value
  {
    match Behind(s, ":")
    case None => None
    case Some(r) => match Behind(r, "\"")
      case None => None
      case Some(r) => match Find(r, "\"")
        case None => None
        case Some(q) =>
          assert forall j :: 0 <= j < q ==> r[j] != '"' by {
            assert forall j :: 0 <= j < q && r[j] == '"' ==> At(r, "\"", j);
          }
          Some(r[..q])
  }

  /** http.rs, `field`. */
  function Field(s: string, name: string): (r: Option<string>)
    ensures r.Some? ==> '"' !in r.value
  {
    match Behind(s, "\"" + name + "\"") case None => None case Some(r) => Quoted(r)
  }

  datatype Error = NotUtf8 | NoDevice | NoKey | BadHex

  datatype Result = Parsed(id: string, key: bytes) | Rejected(error: Error)

  function ParseText(s: string): Result {
    match Field(s, "device_id")
    case None => Rejected(NoDevice)
    case Some(id) => match Field(s, "key")
      case None => Rejected(NoKey)
      case Some(hex) =>
        if |hex| % 2 != 0 || hex == [] then Rejected(BadHex)
        else match ParseHex(hex)
          case Broken => Rejected(BadHex)
          case Read(key) => Parsed(id, key)
  }

  function Chars(b: bytes): (s: string)
    ensures |s| == |b|
  {
    seq(|b|, i requires 0 <= i < |b| => b[i] as char)
  }

  function ParseOf(body: bytes): Result {
    if Utf8.Valid(body) then ParseText(Chars(body)) else Rejected(NotUtf8)
  }

  /** http.rs, `parse_escrow`: the key grows by one byte for every two digits. */
  method ParseEscrow(body: bytes) returns (r: Result)
    ensures r == ParseOf(body)
  {
    hide Field, HexResult.After, FromRadix;
    if !Utf8.Valid(body) { return Rejected(NotUtf8); }
    var s := Chars(body);
    var device := Field(s, "device_id");
    if device.None? { return Rejected(NoDevice); }
    var hex := Field(s, "key");
    if hex.None? { return Rejected(NoKey); }
    var h := hex.value;
    if |h| % 2 != 0 || h == [] { return Rejected(BadHex); }
    var key, ok := HexLoop(h);
    r := if ok then Parsed(device.value, key) else Rejected(BadHex);
  }

  method HexLoop(h: string) returns (key: bytes, ok: bool)
    requires |h| % 2 == 0
    ensures ParseHex(h) == if ok then Read(key) else Broken
  {
    hide FromRadix;
    key, ok := [], true;
    var i := 0;
    assert h[0..] == h;
    ParseHex(h).AfterEnds([]);
    while i < |h|
      invariant 0 <= i <= |h| && i % 2 == 0 && ok
      invariant ParseHex(h) == ParseHex(h[i..]).After(key)
      decreases |h| - i
    {
      assert h[i..][2..] == h[i + 2..];
      var b := FromRadix(h[i], h[i + 1]);
      if b.None? { return key, false; }
      ParseHex(h[i + 2..]).AfterBoth(key, [b.value]);
      key := key + [b.value];
      i := i + 2;
    }
    Read([]).AfterEnds(key);
  }

  // ---------------------------------------------------------------- round trip

  /** A quoted value is read back from between its quotes, if no colon stands in front of it but its own. */
  lemma QuotedReads(before: string, v: string, rest: string)
    requires ':' !in before && '"' !in v
    ensures Quoted(before + ":\"" + v + "\"" + rest) == Some(v)
  {
    hide Find;
    var tail := v + ['"'] + rest;
    assert before + ":\"" + v + "\"" + rest == before + [':'] + ("\"" + tail);
    FindChar(before, ':', "\"" + tail);
    assert "\"" + tail == [] + ['"'] + tail;
    FindChar([], '"', tail);
    FindChar(v, '"', rest);
    assert tail[..|v|] == v;
  }

  lemma DeviceField(id: string, rest: string)
    requires '"' !in id
    ensures Field(HEAD + id + "\"" + rest, "device_id") == Some(id)
  {
    hide Find, Quoted;
    var s, pat := HEAD + id + "\"" + rest, "\"device_id\"";
    assert "\"" + "device_id" + "\"" == pat;
    assert s[0 + 0] != pat[0];
    assert At(s, pat, 1);
    BehindFirst(s, pat, 1);
    assert s[12..] == [] + ":\"" + id + "\"" + rest;
    QuotedReads([], id, rest);
  }

  /** A quote in front of a `k` stands in the head and the separator only where a device called `key` puts it. */
  lemma HeadIsClear(s: string)
    requires HEAD <= s
    ensures forall j :: 0 <= j < 13 ==> !At(s, "\"key\"", j)
  {
    forall j | 0 <= j < 13 ensures !At(s, "\"key\"", j) {
      var pat := "\"key\"";
      assert s[j + 0] == HEAD[j] && s[j + 1] == HEAD[j + 1];
      assert HEAD[j] != '"' || HEAD[j + 1] != 'k';
      assert s[j + 0] != pat[0] || s[j + 1] != pat[1];
    }
  }

  lemma MiddleIsClear(s: string, id: string, rest: string)
    requires '"' !in id && id != "key" && s == HEAD + id + "\"," + rest && |rest| >= 5
    ensures forall j :: 13 <= j < 16 + |id| ==> !At(s, "\"key\"", j)
  {
    var n, pat := |id|, "\"key\"";
    assert forall i :: 0 <= i < n ==> s[14 + i] == id[i];
    assert s[14 + n] == '"' && s[15 + n] == ',';
    forall j | 13 <= j < 16 + n ensures !At(s, pat, j) {
      if j == 13 {
        QuoteEndsId(s, id);
      } else if j < 14 + n {
        assert s[j + 0] == id[j - 14] != pat[0];
      } else if j == 14 + n {
        assert s[j + 1] != pat[1];
      } else {
        assert s[j + 0] != pat[0];
      }
    }
  }

  lemma QuoteEndsId(s: string, id: string)
    requires '"' !in id && id != "key" && |s| >= 19 && |s| >= 15 + |id|
    requires (forall i :: 0 <= i < |id| ==> s[14 + i] == id[i]) && s[14 + |id|] == '"'
    ensures !At(s, "\"key\"", 13)
  {
    var n, pat := |id|, "\"key\"";
    if n > 3 {
      assert s[13 + 4] == id[3] != pat[4];
    } else if n == 3 {
      assert id == [id[0], id[1], id[2]];
      assert s[13 + 1] == id[0] && s[13 + 2] == id[1] && s[13 + 3] == id[2];
      assert id[0] != pat[1] || id[1] != pat[2] || id[2] != pat[3];
    } else {
      assert s[13 + (n + 1)] != pat[n + 1];
    }
  }

  /** The word `key` in quotes first stands at its own field, unless a device of that name comes earlier. */
  lemma KeyPosition(id: string, value: string)
    requires '"' !in id
    ensures Behind(HEAD + id + "\",\"key\"" + value, "\"key\"")
         == Some((if id == "key" then ",\"key\"" else "") + value)
  {
    hide Find;
    var pat, n := "\"key\"", |id|;
    var s := HEAD + id + "\"," + (pat + value);
    assert HEAD + id + "\",\"key\"" + value == s;
    HeadIsClear(s);
    if id == "key" {
      assert At(s, pat, 13);
      BehindFirst(s, pat, 13);
      assert s[18..] == ",\"key\"" + value;
    } else {
      MiddleIsClear(s, id, pat + value);
      assert At(s, pat, 16 + n);
      BehindFirst(s, pat, 16 + n);
      assert s[21 + n..] == "" + value;
    }
  }

  lemma KeyField(id: string, hex: string)
    requires '"' !in id && '"' !in hex
    ensures Field(HEAD + id + MIDDLE + hex + TAIL, "key") == Some(hex)
  {
    hide Find, Behind, Quoted;
    var value := ":\"" + hex + TAIL;
    KeyPosition(id, value);
    assert "\"" + "key" + "\"" == "\"key\"";
    assert HEAD + id + MIDDLE + hex + TAIL == HEAD + id + "\",\"key\"" + value;
    var before := if id == "key" then ",\"key\"" else "";
    assert before + value == before + ":\"" + hex + "\"" + "}";
    QuotedReads(before, hex, "}");
  }

  /**
   What the recovery environment prints, the control plane parses to the same device and key, exactly when the device
   has no quote in its name and the key is not empty. A device called `key` is no exception.
   */
  lemma WireRoundTripIff(id: string, key: bytes)
    ensures ParseText(Body(id, key)) == Parsed(id, key) <==> '"' !in id && key != []
  {
    hide Field, Hex, ParseHex;
    var rest := ",\"key\":\"" + Hex(key) + TAIL;
    assert Body(id, key) == HEAD + id + "\"" + rest;
    HexParses(key);
    if '"' !in id {
      DeviceField(id, rest);
      KeyField(id, Hex(key));
    }
  }

  // ---------------------------------------------------------------- what else is read

  /**
   How a field stands in a text: the quoted name for the first time, the next colon, and a value between the next two
   quotes.
   */
  predicate StandsAs(s: string, name: string, before: string, gap: string, pad: string, v: string, rest: string) {
    && s == before + ("\"" + name + "\"") + gap + [':'] + pad + ['"'] + v + ['"'] + rest
    && (forall j :: 0 <= j < |before| ==> !At(s, "\"" + name + "\"", j))
    && ':' !in gap && '"' !in pad && '"' !in v
  }

  /** A field that stands in a text is read, whatever surrounds it. */
  lemma FieldReads(s: string, name: string, before: string, gap: string, pad: string, v: string, rest: string)
    requires StandsAs(s, name, before, gap, pad, v, rest)
    ensures Field(s, name) == Some(v)
  {
    hide Find;
    var pat := "\"" + name + "\"";
    var d := v + ['"'] + rest;
    var c := pad + ['"'] + d;
    var b := gap + [':'] + c;
    assert s == before + pat + b;
    assert At(s, pat, |before|);
    BehindFirst(s, pat, |before|);
    assert s[|before| + |pat|..] == b;
    FindChar(gap, ':', c);
    FindChar(pad, '"', d);
    FindChar(v, '"', rest);
    assert d[..|v|] == v;
  }

  /** The three places a quoted value is cut out at. */
  lemma QuotedCuts(b: string) returns (gap: string, c: string, pad: string, d: string, rest: string)
    requires Quoted(b).Some?
    ensures b == gap + [':'] + c && c == pad + ['"'] + d && d == Quoted(b).value + ['"'] + rest
    ensures ':' !in gap && '"' !in pad
  {
    hide Find;
    gap, c := CharSplits(b, ':');
    pad, d := CharSplits(c, '"');
    var v;
    v, rest := CharSplits(d, '"');
  }

  /** A quoted value that was read stands behind a colon, between two quotes. */
  lemma QuotedStands(b: string) returns (gap: string, pad: string, rest: string)
    requires Quoted(b).Some?
    ensures b == gap + ([':'] + (pad + (['"'] + (Quoted(b).value + (['"'] + rest)))))
    ensures ':' !in gap && '"' !in pad && '"' !in Quoted(b).value
  {
    hide Quoted;
    var c, d;
    gap, c, pad, d, rest := QuotedCuts(b);
    Nested(gap, ':', c);
    Nested(pad, '"', d);
    Nested(Quoted(b).value, '"', rest);
  }

  lemma Nested(a: string, c: char, b: string)
    ensures a + [c] + b == a + ([c] + b)
  {
  }

  /** And only such a field is read. */
  lemma FieldStands(s: string, name: string) returns (before: string, gap: string, pad: string, rest: string)
    requires Field(s, name).Some?
    ensures StandsAs(s, name, before, gap, pad, Field(s, name).value, rest)
  {
    hide Find, Quoted;
    var pat, v := "\"" + name + "\"", Field(s, name).value;
    var i := Find(s, pat).value;
    before := s[..i];
    var b := s[i + |pat|..];
    gap, pad, rest := QuotedStands(b);
    hide Field, Behind;
    assert s == before + pat + b;
    Regrouped(before, pat, gap, pad, v, rest);
  }

  lemma Regrouped(before: string, pat: string, gap: string, pad: string, v: string, rest: string)
    ensures before + pat + (gap + ([':'] + (pad + (['"'] + (v + (['"'] + rest))))))
         == before + pat + gap + [':'] + pad + ['"'] + v + ['"'] + rest
  {
  }

  /** Where a character is found, the text splits there. */
  lemma CharSplits(s: string, c: char) returns (a: string, b: string)
    requires Find(s, [c]).Some?
    ensures s == a + [c] + b && c !in a && Find(s, [c]) == Some(|a|) && Behind(s, [c]) == Some(b) && a == s[..|a|]
  {
    hide Find;
    var k := Find(s, [c]).value;
    a, b := s[..k], s[k + 1..];
    assert s[k + 0] == [c][0];
    assert forall j :: 0 <= j < k ==> (At(s, [c], j) <==> s[j] == c);
  }

  /** What a text is parsed to, from its two fields. */
  lemma ParseAnswers(s: string)
    ensures var r, id, hex := ParseText(s), Field(s, "device_id"), Field(s, "key");
            && (r == Rejected(NoDevice) <==> id.None?)
            && (r == Rejected(NoKey) <==> id.Some? && hex.None?)
            && (r == Rejected(BadHex) <==>
                  && id.Some? && hex.Some?
                  && (|hex.value| == 0 || |hex.value| % 2 == 1
                      || exists i :: 0 <= i < |hex.value| / 2
                                     && FromRadix(hex.value[2 * i], hex.value[2 * i + 1]).None?))
            && (r.Parsed? ==>
                  && id == Some(r.id) && hex.Some? && |hex.value| == 2 * |r.key| && r.key != []
                  && forall i :: 0 <= i < |r.key| ==>
                       FromRadix(hex.value[2 * i], hex.value[2 * i + 1]) == Some(r.key[i]))
  {
    hide Field, FromRadix;
    var hex := Field(s, "key");
    if hex.Some? && |hex.value| % 2 == 0 {
      HexAnswers(hex.value);
      hide ParseHex;
    }
  }

  lemma {:induction false} HexAnswers(h: string)
    requires |h| % 2 == 0
    ensures ParseHex(h).Broken? <==> exists i :: 0 <= i < |h| / 2 && FromRadix(h[2 * i], h[2 * i + 1]).None?
    ensures ParseHex(h).Read? ==>
              && 2 * |ParseHex(h).key| == |h|
              && forall i :: 0 <= i < |h| / 2 ==> FromRadix(h[2 * i], h[2 * i + 1]) == Some(ParseHex(h).key[i])
    decreases |h|
  {
    hide FromRadix;
    if h != [] {
      var rest := h[2..];
      HexAnswers(rest);
      assert forall i :: 0 <= i < |rest| / 2 ==> rest[2 * i] == h[2 * (i + 1)] && rest[2 * i + 1] == h[2 * (i + 1) + 1];
      if FromRadix(h[0], h[1]).None? {
        assert FromRadix(h[2 * 0], h[2 * 0 + 1]).None?;
      } else if ParseHex(rest).Broken? {
        var i :| 0 <= i < |rest| / 2 && FromRadix(rest[2 * i], rest[2 * i + 1]).None?;
        assert FromRadix(h[2 * (i + 1)], h[2 * (i + 1) + 1]).None?;
      } else {
        var k := ParseHex(h).key;
        forall i | 0 <= i < |h| / 2 ensures FromRadix(h[2 * i], h[2 * i + 1]) == Some(k[i]) {
          if i > 0 {
            assert FromRadix(rest[2 * (i - 1)], rest[2 * (i - 1) + 1]) == Some(ParseHex(rest).key[i - 1]);
          }
        }
      }
    }
  }

  // ---------------------------------------------------------------- the bytes sent

  lemma {:induction false} HexIsAscii(key: bytes)
    ensures forall i :: 0 <= i < |Hex(key)| ==> Hex(key)[i] < 128 as char
    decreases |key|
  {
    if key != [] {
      HexIsAscii(key[1..]);
      HexSplits(key);
      assert forall n :: 0 <= n < 16 ==> DIGITS[n] < 128 as char;
      assert forall i :: 2 <= i < |Hex(key)| ==> Hex(key)[i] == Hex(key)[2..][i - 2];
    }
  }

  /** Bytes whose characters are a valid text between two pieces of ASCII are a valid text. */
  lemma SandwichIsValid(body: bytes, head: string, id: Utf8.text, rest: string)
    requires Chars(body) == head + Chars(id) + rest
    requires forall c :: c in head || c in rest ==> c < 128 as char
    ensures Utf8.Valid(body)
  {
    hide Utf8.Valid, Chars;
    var n, m := |head|, |head| + |id|;
    assert Chars(body)[..n] == head && Chars(body)[n..m] == Chars(id) && Chars(body)[m..|body|] == rest;
    CharsOfSlice(body, 0, n);
    CharsOfSlice(body, n, m);
    CharsOfSlice(body, m, |body|);
    AsciiIsValid(body[0..n]);
    AsciiIsValid(body[m..|body|]);
    CharsInjective(body[n..m], id);
    Utf8.ValidAppend(body[0..n], id);
    Utf8.ValidAppend(body[0..n] + id, body[m..|body|]);
    assert body == body[0..n] + id + body[m..|body|];
  }

  lemma CharsOfSlice(b: bytes, lo: nat, hi: nat)
    requires lo <= hi <= |b|
    ensures Chars(b[lo..hi]) == Chars(b)[lo..hi]
  {
  }

  lemma CharsInjective(a: bytes, b: bytes)
    requires Chars(a) == Chars(b)
    ensures a == b
  {
    assert |a| == |Chars(a)| == |b|;
    forall i | 0 <= i < |a| ensures a[i] == b[i] {
      assert Chars(a)[i] as int == a[i] && Chars(b)[i] as int == b[i];
    }
  }

  lemma AsciiIsValid(b: bytes)
    requires forall c :: c in Chars(b) ==> c < 128 as char
    ensures Utf8.Valid(b)
  {
    hide Utf8.Valid;
    forall i | 0 <= i < |b| ensures b[i] < 0x80 {
      assert Chars(b)[i] in Chars(b);
    }
    Utf8.AsciiValid(b);
  }

  /** The same over the bytes on the wire, for a device named in any valid text. */
  lemma BytesRoundTripIff(body: bytes, id: Utf8.text, key: bytes)
    requires Chars(body) == Body(Chars(id), key)
    ensures ParseOf(body) == Parsed(Chars(id), key) <==> '"' !in Chars(id) && key != []
  {
    hide ParseText, Hex, Utf8.Valid, Chars;
    var rest := MIDDLE + Hex(key) + TAIL;
    HexIsAscii(key);
    assert Body(Chars(id), key) == HEAD + Chars(id) + rest;
    SandwichIsValid(body, HEAD, id, rest);
    WireRoundTripIff(Chars(id), key);
  }

  // ---------------------------------------------------------------- known bodies

  /** The body the two programs agree on, character for character. */
  lemma KnownBody()
    ensures Body("dev-1", [0xde, 0xad, 0xbe, 0xef]) == "{\"device_id\":\"dev-1\",\"key\":\"deadbeef\"}"
  {
    hide Hex, HexByte;
    HexFollows(0xde, [0xad, 0xbe, 0xef]);
    HexFollows(0xad, [0xbe, 0xef]);
    HexFollows(0xbe, [0xef]);
    HexFollows(0xef, []);
    KnownDigits();
    assert [0xde] + [0xad, 0xbe, 0xef] == [0xde, 0xad, 0xbe, 0xef] && [0xad] + [0xbe, 0xef] == [0xad, 0xbe, 0xef];
    assert [0xbe] + [0xef] == [0xbe, 0xef] && [0xef] + [] == [0xef];
    assert Hex([]) == "";
    assert Hex([0xde, 0xad, 0xbe, 0xef]) == "deadbeef";
  }

  lemma HexFollows(b: byte, rest: bytes)
    ensures Hex([b] + rest) == HexByte(b) + Hex(rest)
  {
    assert ([b] + rest)[1..] == rest;
  }

  lemma KnownDigits()
    ensures HexByte(0xde) == "de" && HexByte(0xad) == "ad" && HexByte(0xbe) == "be" && HexByte(0xef) == "ef"
  {
  }
}
