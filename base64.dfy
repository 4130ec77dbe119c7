/** Base64 as Ruby's `Base64.encode64` / `decode64` do it, and the library's
    `XmlRpc::API::Value` wrapper that carries a base64 parameter in its encoded
    form. The alphabet and padding are those of section 4 of RFC 4648; the
    encoder also breaks its output into lines of 60 characters, each ended by a
    line feed, in the manner of section 6.8 of RFC 2045. */
module Base64 {
  import opened Wrappers
  import Text

  type byte = b: int | 0 <= b < 256

  /** The character of the base64 alphabet for a 6-bit value. */
  function Char64(i: nat): (c: char)
    requires i < 64
  {
    if i < 26 then ('A' as int + i) as char
    else if i < 52 then ('a' as int + (i - 26)) as char
    else if i < 62 then ('0' as int + (i - 52)) as char
    else if i == 62 then '+'
    else '/'
  }

  /** The 6-bit value of an alphabet character; other characters (line breaks,
      padding) have none. */
  function SextetOf(c: char): (r: Option<nat>)
    ensures r.Some? ==> r.value < 64
  {
    if 'A' <= c <= 'Z' then Some(c as int - 'A' as int)
    else if 'a' <= c <= 'z' then Some(c as int - 'a' as int + 26)
    else if '0' <= c <= '9' then Some(c as int - '0' as int + 52)
    else if c == '+' then Some(62)
    else if c == '/' then Some(63)
    else None
  }

  lemma SextetOfChar64(i: nat)
    requires i < 64
    ensures SextetOf(Char64(i)) == Some(i)
  {
  }

  /** Four characters for the group of one to three bytes `g`, padded with '='. */
  function EncodeGroup(g: seq<byte>): (r: string)
    requires 1 <= |g| <= 3
    ensures |r| == 4
  {
    var a := g[0];
    if |g| == 1 then [Char64(a / 4), Char64((a % 4) * 16), '=', '=']
    else
      var b := g[1];
      if |g| == 2 then [Char64(a / 4), Char64((a % 4) * 16 + b / 16), Char64((b % 16) * 4), '=']
      else
        var c := g[2];
        [Char64(a / 4), Char64((a % 4) * 16 + b / 16), Char64((b % 16) * 4 + c / 64), Char64(c % 64)]
  }

  /** Base64 of `d` on one line (RFC 4648, section 4). */
  function StrictEncode(d: seq<byte>): string
    decreases |d|
  {
    if d == [] then ""
    else if |d| <= 3 then EncodeGroup(d)
    else EncodeGroup(d[..3]) + StrictEncode(d[3..])
  }

  /** Lines of at most 60 characters, each ended by a line feed. */
  function Wrap(t: string): string
    decreases |t|
  {
    if t == [] then ""
    else if |t| <= 60 then t + "\n"
    else t[..60] + "\n" + Wrap(t[60..])
  }

  /** `Base64.encode64`. */
  function Encode64(d: seq<byte>): string {
    Wrap(StrictEncode(d))
  }

  /** The 6-bit values of one character: one value for an alphabet character,
      none for anything else. */
  function CharSextets(c: char): seq<nat> {
    match SextetOf(c)
    case Some(v) => [v]
    case None => []
  }

  /** The 6-bit values of the alphabet characters of `t`, in order. */
  function TextSextets(t: string): (s: seq<nat>)
    ensures forall i :: 0 <= i < |s| ==> s[i] < 64
  {
    if t == [] then []
    else
      CharSextets(t[0]) + TextSextets(t[1..])
  }

  /** Bytes from 6-bit values: every four give three bytes, and a final two or
      three give one or two. */
  function DecodeSextets(s: seq<nat>): (r: seq<byte>)
    requires forall i :: 0 <= i < |s| ==> s[i] < 64
    decreases |s|
  {
    if |s| >= 4 then
      [s[0] * 4 + s[1] / 16, (s[1] % 16) * 16 + s[2] / 4, (s[2] % 4) * 64 + s[3]]
      + DecodeSextets(s[4..])
    else if |s| == 3 then [s[0] * 4 + s[1] / 16, (s[1] % 16) * 16 + s[2] / 4]
    else if |s| == 2 then [s[0] * 4 + s[1] / 16]
    else []
  }

  /** `Base64.decode64` on well-formed text: line breaks and padding carry no
      data and are passed over. */
  function Decode64(t: string): seq<byte> {
    DecodeSextets(TextSextets(t))
  }

  lemma {:induction false} TextSextetsAppend(a: string, b: string)
    ensures TextSextets(a + b) == TextSextets(a) + TextSextets(b)
  {
    if a == [] {
      assert a + b == b;
    } else {
      assert (a + b)[1..] == a[1..] + b;
      TextSextetsAppend(a[1..], b);
    }
  }

  lemma {:induction false} TextSextetsWrap(t: string)
    ensures TextSextets(Wrap(t)) == TextSextets(t)
    decreases |t|
  {
    if t == [] {
    } else if |t| <= 60 {
      TextSextetsAppend(t, "\n");
    } else {
      TextSextetsAppend(t[..60] + "\n", Wrap(t[60..]));
      TextSextetsAppend(t[..60], "\n");
      TextSextetsWrap(t[60..]);
      TextSextetsAppend(t[..60], t[60..]);
      assert t[..60] + t[60..] == t;
    }
  }

  lemma TextSextetsFour(e: string)
    requires |e| == 4
    ensures TextSextets(e) == CharSextets(e[0]) + CharSextets(e[1]) + CharSextets(e[2]) + CharSextets(e[3])
  {
    assert e[1..][1..] == e[2..];
    assert e[2..][1..] == e[3..];
    assert e[3..][1..] == [];
    assert TextSextets(e[3..]) == CharSextets(e[3]);
    assert TextSextets(e[2..]) == CharSextets(e[2]) + CharSextets(e[3]);
    assert TextSextets(e[1..]) == CharSextets(e[1]) + (CharSextets(e[2]) + CharSextets(e[3]));
  }

  /** The 6-bit values `EncodeGroup` writes for a group. */
  function GroupSextets(g: seq<byte>): seq<nat>
    requires 1 <= |g| <= 3
  {
    var a := g[0];
    var b := if |g| >= 2 then g[1] else 0;
    var c := if |g| == 3 then g[2] else 0;
    if |g| == 1 then [a / 4, (a % 4) * 16]
    else if |g| == 2 then [a / 4, (a % 4) * 16 + b / 16, (b % 16) * 4]
    else [a / 4, (a % 4) * 16 + b / 16, (b % 16) * 4 + c / 64, c % 64]
  }

  lemma GroupTextSextets(g: seq<byte>)
    requires 1 <= |g| <= 3
    ensures TextSextets(EncodeGroup(g)) == GroupSextets(g)
  {
    var e := EncodeGroup(g);
    TextSextetsFour(e);
    var a := g[0];
    var b := if |g| >= 2 then g[1] else 0;
    var c := if |g| == 3 then g[2] else 0;
    SextetOfChar64(a / 4);
    SextetOfChar64((a % 4) * 16 + b / 16);
    SextetOfChar64((b % 16) * 4 + c / 64);
    SextetOfChar64(c % 64);
    SextetOfChar64((a % 4) * 16);
    SextetOfChar64((b % 16) * 4);
  }

  lemma GroupBytes(a: byte, b: byte, c: byte)
    ensures (a / 4) * 4 + ((a % 4) * 16 + b / 16) / 16 == a
    ensures (((a % 4) * 16 + b / 16) % 16) * 16 + ((b % 16) * 4 + c / 64) / 4 == b
    ensures (((b % 16) * 4 + c / 64) % 4) * 64 + c % 64 == c
  {
  }

  lemma GroupRoundTrip(g: seq<byte>)
    requires 1 <= |g| <= 3
    ensures DecodeSextets(GroupSextets(g)) == g
  {
    var a := g[0];
    var b := if |g| >= 2 then g[1] else 0;
    var c := if |g| == 3 then g[2] else 0;
    GroupBytes(a, b, c);
    var s := GroupSextets(g);
    if |g| == 3 {
      assert s[4..] == [];
      assert g == [a, b, c];
    } else if |g| == 2 {
      assert g == [a, b];
    } else {
      assert g == [a];
    }
  }

  lemma DecodeSextetsSplit(q: seq<nat>, rest: seq<nat>)
    requires |q| == 4
    requires forall i :: 0 <= i < |q| ==> q[i] < 64
    requires forall i :: 0 <= i < |rest| ==> rest[i] < 64
    ensures DecodeSextets(q + rest) == DecodeSextets(q) + DecodeSextets(rest)
  {
    var all := q + rest;
    assert all[4..] == rest;
    assert q[4..] == [];
  }

  lemma {:induction false} StrictRoundTrip(d: seq<byte>)
    ensures DecodeSextets(TextSextets(StrictEncode(d))) == d
    decreases |d|
  {
    if d == [] {
    } else if |d| <= 3 {
      GroupTextSextets(d);
      GroupRoundTrip(d);
    } else {
      var g := d[..3];
      TextSextetsAppend(EncodeGroup(g), StrictEncode(d[3..]));
      GroupTextSextets(g);
      DecodeSextetsSplit(GroupSextets(g), TextSextets(StrictEncode(d[3..])));
      GroupRoundTrip(g);
      StrictRoundTrip(d[3..]);
      assert d == g + d[3..];
    }
  }

  /** Decoding what `encode64` wrote gives the bytes back, whatever their
      length: the line breaks and the padding are transparent. */
  lemma Decode64Encode64(d: seq<byte>)
    ensures Decode64(Encode64(d)) == d
  {
    TextSextetsWrap(StrictEncode(d));
    StrictRoundTrip(d);
  }

  /** `chomp` removes only line terminators, which carry no base64 data. */
  lemma Decode64Chomp(t: string)
    ensures Decode64(Text.Chomp(t)) == Decode64(t)
  {
    var c := Text.Chomp(t);
    var tail := t[|c|..];
    Text.ChompRemovesLineEnd(t, '\r', '\n');
    assert c + tail == t;
    TextSextetsAppend(c, tail);
    LineEndsSextets(tail);
    assert TextSextets(c) + [] == TextSextets(c);
  }

  /** Line terminators carry no 6-bit values. */
  lemma {:induction false} LineEndsSextets(t: string)
    requires forall i :: 0 <= i < |t| ==> t[i] == '\n' || t[i] == '\r'
    ensures TextSextets(t) == []
  {
    if t != [] {
      assert SextetOf(t[0]).None?;
      LineEndsSextets(t[1..]);
    }
  }

  lemma {:induction false} StrictEncodeLength(d: seq<byte>)
    ensures |StrictEncode(d)| == 4 * ((|d| + 2) / 3)
    decreases |d|
  {
    var n := |d|;
    if n > 3 {
      StrictEncodeLength(d[3..]);
      assert (n - 3 + 2) / 3 == (n + 2) / 3 - 1;
      assert |StrictEncode(d)| == 4 + |StrictEncode(d[3..])|;
    } else if n > 0 {
      assert (n + 2) / 3 == 1;
    }
  }

  lemma {:induction false} StrictEncodeShape(d: seq<byte>)
    ensures |StrictEncode(d)| > 0 ==> StrictEncode(d)[|StrictEncode(d)| - 1] != '\r'
    ensures |StrictEncode(d)| > 0 ==> StrictEncode(d)[|StrictEncode(d)| - 1] != '\n'
    decreases |d|
  {
    if |d| > 3 {
      StrictEncodeShape(d[3..]);
    }
  }

  /** `encode64` ends every line, the last included, with a line feed; so
      `chomp` takes off exactly that final line feed, and a payload of at most
      45 bytes gives one line of strict RFC 4648 base64. */
  lemma ChompEncode64(d: seq<byte>)
    ensures d == [] ==> Encode64(d) == ""
    ensures d != [] ==> Text.Chomp(Encode64(d)) + "\n" == Encode64(d)
    ensures |d| <= 45 ==> Text.Chomp(Encode64(d)) == StrictEncode(d)
  {
    var t := StrictEncode(d);
    if d != [] {
      StrictEncodeShape(d);
      StrictEncodeLength(d);
      if |d| <= 45 {
        assert (|d| + 2) / 3 <= 15;
      }
      ChompWrap(t);
    }
  }

  lemma {:induction false} ChompWrap(t: string)
    requires t != [] && t[|t| - 1] != '\r' && t[|t| - 1] != '\n'
    ensures Text.Chomp(Wrap(t)) + "\n" == Wrap(t)
    ensures |t| <= 60 ==> Text.Chomp(Wrap(t)) == t
    decreases |t|
  {
    if |t| <= 60 {
      Text.ChompNewline(t);
    } else {
      var rest := t[60..];
      ChompWrap(rest);
      var w := Wrap(rest);
      var front := t[..60] + "\n";
      var c := Text.Chomp(w);
      assert w == c + "\n";
      assert front + w == (front + c) + "\n";
      assert |front + c| == 0 || (front + c)[|front + c| - 1] != '\r' by {
        if |c| > 0 {
          assert (front + c)[|front + c| - 1] == c[|c| - 1];
          assert c[|c| - 1] == w[|w| - 2];
        }
      }
      Text.ChompNewline(front + c);
    }
  }

  /** `String#chomp` on the decoded bytes (CR is 13, LF is 10). */
  function ChompBytes(d: seq<byte>): seq<byte> {
    Text.ChompWith(d, 13, 10)
  }

  predicate EndsInLineTerminator(d: seq<byte>) {
    |d| > 0 && (d[|d| - 1] == 10 || d[|d| - 1] == 13)
  }

  /** `Value#to_s`: the encoded text without its final line feed, or the empty
      string when nothing was encoded. */
  function Shown(encoded: Option<string>): string {
    match encoded
    case None => ""
    case Some(t) => Text.Chomp(t)
  }

  /** `Value#decoded_value`: the decoded bytes, chomped, or nil when nothing
      was encoded. */
  function Decoded(encoded: Option<string>): Option<seq<byte>> {
    match encoded
    case None => None
    case Some(t) => Some(ChompBytes(Decode64(t)))
  }

  /** What a wrapper created from `d` decodes to: `d` itself, except that a
      trailing line terminator is lost to `chomp`. */
  lemma DecodedOfEncoded(d: seq<byte>)
    ensures Decoded(Some(Encode64(d))) == Some(ChompBytes(d))
    ensures !EndsInLineTerminator(d) ==> Decoded(Some(Encode64(d))) == Some(d)
  {
    Decode64Encode64(d);
    Text.ChompRemovesLineEnd(d, 13, 10);
  }

  /** The shown text decodes like the encoded text it was cut from, so the
      `<base64>` text a wrapper is written as decodes to the wrapper's bytes. */
  lemma DecodedOfShown(encoded: Option<string>)
    requires encoded.Some?
    ensures Decoded(Some(Shown(encoded))) == Decoded(encoded)
  {
    Decode64Chomp(encoded.value);
  }

  /** Text whose last character is a line feed not preceded by a carriage
      return, as every non-empty `encode64` output is. */
  predicate EndsInLineFeedOnly(t: string) {
    |t| > 0 && t[|t| - 1] == '\n' && (|t| < 2 || t[|t| - 2] != '\r')
  }

  /** So `to_s` of a wrapper made from data is its encoding minus exactly the
      final line feed. */
  lemma EncodeEndsInLineFeed(d: seq<byte>)
    requires d != []
    ensures EndsInLineFeedOnly(Encode64(d))
  {
    var e := Encode64(d);
    ChompEncode64(d);
    assert Text.Chomp(e) + "\n" == e;
    assert |e| > 0 && e[|e| - 1] == '\n';
  }

  /** `XmlRpc::API::Value`: the wrapper for a base64 parameter. Only the kind
      `:base64` exists; the data is kept encoded and decoded on demand. */
  class Base64Value {
    const kind: string
    var encodedValue: Option<string>

    constructor Init(data: Option<seq<byte>>)
      ensures kind == "base64"
      ensures encodedValue == (if data.Some? then Some(Encode64(data.value)) else None)
    {
      kind := "base64";
      if data.Some? {
        encodedValue := Some(Encode64(data.value));
      } else {
        encodedValue := None;
      }
    }

    /** `Value.new(kind, data)`: any kind but `:base64` raises a ValueError. */
    static method New(kind: string, data: Option<seq<byte>>) returns (r: Result<Base64Value, Error>)
      ensures r.Failure? <==> kind != "base64"
      ensures r.Failure? ==> r.error == ValueError("Unsupported value type " + kind)
      ensures r.Success? ==> fresh(r.value) && r.value.kind == "base64"
      ensures r.Success? && data.Some? ==> r.value.encodedValue == Some(Encode64(data.value))
      ensures r.Success? && data.None? ==> r.value.encodedValue == None
    {
      if kind != "base64" {
        return Failure(ValueError("Unsupported value type " + kind));
      }
      var v := new Base64Value.Init(data);
      return Success(v);
    }

    /** `encode_value`: replaces the encoded text by the encoding of `data`. */
    method EncodeValue(data: seq<byte>)
      modifies this
      ensures encodedValue == Some(Encode64(data))
    {
      encodedValue := Some(Encode64(data));
    }

    /** `decoded_value` */
    function DecodedValue(): Option<seq<byte>>
      reads this
    {
      Decoded(encodedValue)
    }

    /** `to_s`: empty when nothing was encoded, and otherwise text that
        decodes to what `decoded_value` gives. */
    function ToS(): (r: string)
      reads this
      ensures encodedValue.None? ==> r == ""
      ensures encodedValue.Some? ==> Decoded(Some(r)) == DecodedValue()
      ensures encodedValue.Some? ==> r <= encodedValue.value && |encodedValue.value| - 2 <= |r|
      ensures encodedValue.Some? ==> forall i :: |r| <= i < |encodedValue.value| ==>
        encodedValue.value[i] == '\n' || encodedValue.value[i] == '\r'
      ensures encodedValue.Some? && EndsInLineFeedOnly(encodedValue.value) ==> r + "\n" == encodedValue.value
    {
      if encodedValue.Some? then
        DecodedOfShown(encodedValue);
        Text.ChompRemovesLineEnd(encodedValue.value, '\r', '\n');
        var e := encodedValue.value;
        assert EndsInLineFeedOnly(e) ==> e[..|e| - 1] + "\n" == e;
        Shown(encodedValue)
      else Shown(encodedValue)
    }
  }
}
