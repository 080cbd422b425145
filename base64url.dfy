/** The `base64url` / `base64urlToBuffer` pair copied into every handler:
    Node's standard base64 encoding (section 4 of RFC 4648) with the padding
    removed and `+` and `/` replaced by `-` and `_` (the URL-safe alphabet of
    section 5 of RFC 4648), and the reverse, which pads the text again and
    hands it to Node's lenient base64 decoder. */
module Base64Url {
  import opened Text
  import opened Wrappers

  type Byte = b: int | 0 <= b < 256
  /** One base64 symbol value: six bits. */
  type Sextet = n: int | 0 <= n < 64

  /** The six-bit groups of the standard encoding, most significant first,
      without padding: three bytes give four symbols, a final one or two
      bytes give two or three symbols with the unused low bits zero. */
  function Sextets(b: seq<Byte>): (xs: seq<Sextet>)
    ensures |xs| == |b| / 3 * 4 + (if |b| % 3 == 0 then 0 else |b| % 3 + 1)
    decreases |b|
  {
    if |b| == 0 then []
    else if |b| == 1 then [b[0] / 4, b[0] % 4 * 16]
    else if |b| == 2 then [b[0] / 4, b[0] % 4 * 16 + b[1] / 16, b[1] % 16 * 4]
    else
      [b[0] / 4, b[0] % 4 * 16 + b[1] / 16, b[1] % 16 * 4 + b[2] / 64, b[2] % 64] + Sextets(b[3..])
  }

  /** Reassembles bytes from symbol values the way Node's decoder does: four
      symbols give three bytes, a final two or three give one or two bytes
      (their unused low bits ignored), and a lone final symbol gives none:
      three bytes for every four symbols, rounded down. */
  function FromSextets(xs: seq<Sextet>): (r: seq<Byte>)
    ensures |xs| * 3 - 3 <= |r| * 4 <= |xs| * 3
    decreases |xs|
  {
    if |xs| < 2 then []
    else
      var x0: int, x1: int := xs[0], xs[1];
      if |xs| == 2 then [x0 * 4 + x1 / 16]
      else
        var x2: int := xs[2];
        if |xs| == 3 then [x0 * 4 + x1 / 16, x1 % 16 * 16 + x2 / 4]
        else
          var x3: int := xs[3];
          [x0 * 4 + x1 / 16, x1 % 16 * 16 + x2 / 4, x2 % 4 * 64 + x3] + FromSextets(xs[4..])
  }

  /** Symbol of the standard alphabet (Table 1 of RFC 4648). */
  function StdChar(n: Sextet): char {
    if n < 26 then ('A' as int + n) as char
    else if n < 52 then ('a' as int + n - 26) as char
    else if n < 62 then ('0' as int + n - 52) as char
    else if n == 62 then '+'
    else '/'
  }

  /** Symbol of the URL-safe alphabet (Table 2 of RFC 4648). */
  function UrlChar(n: Sextet): char {
    if n == 62 then '-' else if n == 63 then '_' else StdChar(n)
  }

  /** The characters `base64url` can produce. */
  predicate IsUrlChar(c: char) {
    'A' <= c <= 'Z' || 'a' <= c <= 'z' || '0' <= c <= '9' || c == '-' || c == '_'
  }

  /** The value Node's decoder gives a character: both alphabets are
      accepted; any other character has no value. */
  function SymbolValue(c: char): (v: Option<Sextet>)
    ensures v.Some? ==> StdChar(v.value) == c || UrlChar(v.value) == c
  {
    if 'A' <= c <= 'Z' then Some(c as int - 'A' as int)
    else if 'a' <= c <= 'z' then Some(c as int - 'a' as int + 26)
    else if '0' <= c <= '9' then Some(c as int - '0' as int + 52)
    else if c == '+' || c == '-' then Some(62)
    else if c == '/' || c == '_' then Some(63)
    else None
  }

  function StdText(xs: seq<Sextet>): (s: string)
    ensures |s| == |xs| && forall i :: 0 <= i < |xs| ==> s[i] == StdChar(xs[i])
  {
    seq(|xs|, i requires 0 <= i < |xs| => StdChar(xs[i]))
  }

  function UrlText(xs: seq<Sextet>): (s: string)
    ensures |s| == |xs| && forall i :: 0 <= i < |xs| ==> s[i] == UrlChar(xs[i])
  {
    seq(|xs|, i requires 0 <= i < |xs| => UrlChar(xs[i]))
  }

  /** `buf.toString("base64")`: the standard symbols, then `=` up to a
      multiple of four characters. */
  function StdEncode(b: seq<Byte>): string {
    StdText(Sextets(b)) + Repeat('=', if |b| % 3 == 0 then 0 else 3 - |b| % 3)
  }

  /** `base64url(buf)`: drop every `=`, then replace `+` by `-` and `/` by
      `_`. What is left is the URL-safe symbol of every six-bit group and
      nothing else. */
  function Encode(b: seq<Byte>): (r: string)
    ensures r == UrlText(Sextets(b))
  {
    var xs := Sextets(b);
    var pad := Repeat('=', if |b| % 3 == 0 then 0 else 3 - |b| % 3);
    RemoveAllConcat(StdText(xs), pad, '=');
    RemoveAllRepeat('=', |pad|);
    NoPadInText(xs);
    assert RemoveAll(StdEncode(b), '=') == StdText(xs);
    UrlFromStd(xs);
    ReplaceAll(ReplaceAll(RemoveAll(StdEncode(b), '='), '+', '-'), '/', '_')
  }

  /** The symbol values Node's base64 decoder collects: characters without a
      value are skipped, and the first `=` ends the input. */
  function NodeSymbols(s: string): (xs: seq<Sextet>)
    ensures |xs| <= |s|
    ensures (forall i :: 0 <= i < |s| ==> SymbolValue(s[i]).Some?) ==>
      |xs| == |s| && forall i :: 0 <= i < |s| ==> xs[i] == SymbolValue(s[i]).value
    decreases |s|
  {
    if |s| == 0 || s[0] == '=' then []
    else match SymbolValue(s[0])
      case Some(v) =>
        var rest := NodeSymbols(s[1..]);
        assert forall i :: 1 <= i < |s| ==> s[i] == s[1..][i - 1];
        [v] + rest
      case None => NodeSymbols(s[1..])
  }

  /** `Buffer.from(text, "base64")`: at most three bytes for every four
      characters. */
  function NodeDecode(s: string): (r: seq<Byte>)
    ensures |r| * 4 <= |s| * 3
  {
    FromSextets(NodeSymbols(s))
  }

  /** `base64urlToBuffer(input)`: pad with `=` to a multiple of four, map
      `-` and `_` back to `+` and `/`, and decode. The padding adds no
      bytes: at most three bytes for every four characters of the input. */
  function Decode(input: string): (r: seq<Byte>)
    ensures |r| * 4 <= |input| * 3
  {
    var pad := if |input| % 4 != 0 then Repeat('=', 4 - |input| % 4) else "";
    var t := ReplaceAll(ReplaceAll(input, '-', '+'), '_', '/');
    PaddingAddsNoSymbols(t, pad);
    NodeDecode(t + pad)
  }

  /** `=` padding after a text contributes no symbol values. */
  lemma {:induction false} PaddingAddsNoSymbols(t: string, pad: string)
    requires forall i :: 0 <= i < |pad| ==> pad[i] == '='
    ensures |NodeSymbols(t + pad)| <= |t|
    decreases |t|
  {
    if |t| == 0 {
      assert t + pad == pad;
    } else {
      assert (t + pad)[1..] == t[1..] + pad;
      PaddingAddsNoSymbols(t[1..], pad);
    }
  }

  // ---------------------------------------------------------------------
  // Round trip

  /** One group of three bytes survives encoding and decoding. */
  lemma GroupRoundTrip(b0: Byte, b1: Byte, b2: Byte)
    ensures b0 / 4 * 4 + (b0 % 4 * 16 + b1 / 16) / 16 == b0
    ensures (b0 % 4 * 16 + b1 / 16) % 16 * 16 + (b1 % 16 * 4 + b2 / 64) / 4 == b1
    ensures (b1 % 16 * 4 + b2 / 64) % 4 * 64 + b2 % 64 == b2
  {
  }

  /** Decoding the symbol values of the encoding gives the bytes back. */
  lemma {:induction false} SextetsRoundTrip(b: seq<Byte>)
    ensures FromSextets(Sextets(b)) == b
    decreases |b|
  {
    if |b| == 0 {
    } else if |b| == 1 {
      GroupRoundTrip(b[0], 0, 0);
    } else if |b| == 2 {
      GroupRoundTrip(b[0], b[1], 0);
    } else {
      GroupRoundTrip(b[0], b[1], b[2]);
      SextetsRoundTrip(b[3..]);
      var xs := Sextets(b);
      assert xs[4..] == Sextets(b[3..]);
      assert b == b[..3] + b[3..];
    }
  }

  /** Every symbol of either alphabet decodes to its own value. */
  lemma SymbolValueInverts(n: Sextet)
    ensures SymbolValue(StdChar(n)) == Some(n)
    ensures SymbolValue(UrlChar(n)) == Some(n)
  {
  }

  lemma {:induction false} RemoveAllRepeat(c: char, n: nat)
    ensures RemoveAll(Repeat(c, n), c) == ""
    decreases n
  {
    if n > 0 {
      assert Repeat(c, n)[1..] == Repeat(c, n - 1);
      RemoveAllRepeat(c, n - 1);
    }
  }

  lemma NoPadInText(xs: seq<Sextet>)
    ensures '=' !in StdText(xs)
  {
    var t := StdText(xs);
    forall i | 0 <= i < |t| ensures t[i] != '=' {
      assert t[i] == StdChar(xs[i]);
    }
  }

  /** Replacing `+` by `-` and `/` by `_` turns standard symbols into
      URL-safe ones. */
  lemma UrlFromStd(xs: seq<Sextet>)
    ensures ReplaceAll(ReplaceAll(StdText(xs), '+', '-'), '/', '_') == UrlText(xs)
  {
    var t := ReplaceAll(ReplaceAll(StdText(xs), '+', '-'), '/', '_');
    forall i | 0 <= i < |xs| ensures t[i] == UrlChar(xs[i]) {
      assert StdText(xs)[i] == StdChar(xs[i]);
    }
  }

  /** Decoding collects the symbol values of a text in one alphabet up to
      the padding. */
  lemma {:induction false} NodeSymbolsOfText(xs: seq<Sextet>, pad: string)
    requires forall i :: 0 <= i < |pad| ==> pad[i] == '='
    ensures NodeSymbols(StdText(xs) + pad) == xs
    decreases |xs|
  {
    var s := StdText(xs) + pad;
    if |xs| == 0 {
      assert s == pad;
    } else {
      SymbolValueInverts(xs[0]);
      assert s[0] == StdChar(xs[0]);
      assert s[1..] == StdText(xs[1..]) + pad;
      NodeSymbolsOfText(xs[1..], pad);
    }
  }

  /** Mapping the URL-safe symbols back gives the standard symbols. */
  lemma UrlTextBack(xs: seq<Sextet>)
    ensures ReplaceAll(ReplaceAll(UrlText(xs), '-', '+'), '_', '/') == StdText(xs)
  {
    var back := ReplaceAll(ReplaceAll(UrlText(xs), '-', '+'), '_', '/');
    assert forall i :: 0 <= i < |xs| ==> back[i] == StdText(xs)[i];
  }

  /** The unpadded encoding never leaves a lone symbol at the end. */
  lemma NoLoneSymbol(b: seq<Byte>)
    ensures |Sextets(b)| % 4 != 1
  {
  }

  /** `base64urlToBuffer(base64url(b)) == b`. */
  lemma RoundTrip(b: seq<Byte>)
    ensures Decode(Encode(b)) == b
  {
    var xs := Sextets(b);
    var input := UrlText(xs);
    UrlTextBack(xs);
    NoLoneSymbol(b);
    var pad := if |input| % 4 != 0 then Repeat('=', 4 - |input| % 4) else "";
    NodeSymbolsOfText(xs, pad);
    SextetsRoundTrip(b);
    DecodeUnfold(input);
  }

  /** `base64urlToBuffer` is Node's decoder on the restored, padded text. */
  lemma DecodeUnfold(input: string)
    ensures Decode(input) == FromSextets(NodeSymbols(ReplaceAll(ReplaceAll(input, '-', '+'), '_', '/')
                                         + (if |input| % 4 != 0 then Repeat('=', 4 - |input| % 4) else "")))
  {
  }

  /** `base64url` output uses only the URL-safe alphabet: no `=`, `+` or `/`,
      and in particular no `.` or `$`, the separators of the session token
      and the stored password. */
  lemma EncodeAlphabet(b: seq<Byte>)
    ensures forall i :: 0 <= i < |Encode(b)| ==> IsUrlChar(Encode(b)[i])
    ensures '=' !in Encode(b) && '+' !in Encode(b) && '/' !in Encode(b)
    ensures '.' !in Encode(b) && '$' !in Encode(b)
  {
    var e := Encode(b);
    var xs := Sextets(b);
    forall i | 0 <= i < |e| ensures IsUrlChar(e[i]) {
      assert e[i] == UrlChar(xs[i]);
    }
    NotUrlChars(e);
  }

  /** A string of URL-safe symbols has no padding, standard-only symbol or
      separator in it. */
  lemma NotUrlChars(e: string)
    requires forall i :: 0 <= i < |e| ==> IsUrlChar(e[i])
    ensures '=' !in e && '+' !in e && '/' !in e && '.' !in e && '$' !in e
  {
    forall i | 0 <= i < |e|
      ensures e[i] != '=' && e[i] != '+' && e[i] != '/' && e[i] != '.' && e[i] != '$'
    {
      assert IsUrlChar(e[i]);
    }
  }
}
