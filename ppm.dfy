/** The Netpbm P3 (ASCII) and P6 (binary) codec of src/ppm.py, over an
    in-memory byte sequence standing for the file. */
module Ppm {
  import opened Common
  import opened ImageBuffers

  // ---------------------------------------------------------------------
  // Byte classes

  /** The header separators `b" \t\r\n\v\f"`. */
  predicate IsHeaderSpace(b: Byte) {
    b == 32 || b == 9 || b == 13 || b == 10 || b == 11 || b == 12
  }

  /** `chr(b).isspace()` for a byte `b`: the ASCII separators, the four
      information separators 28..31, NEL (133) and NO-BREAK SPACE (160). */
  predicate IsSpace(b: Byte) {
    (9 <= b <= 13) || (28 <= b <= 32) || b == 133 || b == 160
  }

  /** A comment ends at CR or LF. */
  predicate IsLineEnd(b: Byte) {
    b == 10 || b == 13
  }

  /** A `#` starts a comment. */
  const Hash: Byte := 35

  /** `bytes.decode("ascii")` succeeds. */
  predicate IsAscii(t: seq<Byte>) {
    forall i :: 0 <= i < |t| ==> t[i] < 128
  }

  /** The tokens `int()` accepts in this model: non-empty runs of decimal digits. */
  predicate IsDecimal(t: seq<Byte>) {
    |t| > 0 && forall i :: 0 <= i < |t| ==> 48 <= t[i] <= 57
  }

  /** A non-empty byte string the header tokenizer keeps inside one token. */
  predicate IsHeaderWord(t: seq<Byte>) {
    |t| > 0 && forall i :: 0 <= i < |t| ==> !IsHeaderSpace(t[i]) && t[i] != Hash
  }

  /** A non-empty byte string the body tokenizer keeps inside one token. */
  predicate IsBodyWord(t: seq<Byte>) {
    |t| > 0 && forall i :: 0 <= i < |t| ==> !IsSpace(t[i]) && t[i] != Hash
  }

  // ---------------------------------------------------------------------
  // Decimal numerals

  /** The value of a decimal numeral. */
  function DecimalValue(t: seq<Byte>): nat
    requires IsDecimal(t)
    decreases |t|
  {
    if |t| == 1 then t[0] - 48
    else DecimalValue(t[..|t| - 1]) * 10 + (t[|t| - 1] - 48)
  }

  /** `str(n)` for a natural number: its shortest decimal numeral. */
  function ShowNat(n: nat): (s: seq<Byte>)
    ensures IsDecimal(s) && IsAscii(s) && IsHeaderWord(s) && IsBodyWord(s)
    ensures |s| == 1 <==> n < 10
  {
    if n < 10 then [48 + n] else ShowNat(n / 10) + [48 + n % 10]
  }

  /** `str(n)` for an integer. */
  function ShowInt(n: int): seq<Byte> {
    if n < 0 then [45] + ShowNat(-n) else ShowNat(n)
  }

  /** Parsing the numeral of `n` gives `n` back. */
  lemma {:induction false} DecimalRoundTrip(n: nat)
    ensures DecimalValue(ShowNat(n)) == n
  {
    if n >= 10 {
      var s := ShowNat(n);
      assert s[..|s| - 1] == ShowNat(n / 10);
      DecimalRoundTrip(n / 10);
    }
  }

  // ---------------------------------------------------------------------
  // The header tokenizer (`_read_tokens`)

  /** Tokens produced, and the part of the stream left unread. */
  datatype Scan = Scan(tokens: seq<seq<Byte>>, rest: seq<Byte>)

  function Prefixed(ts: seq<seq<Byte>>, sc: Scan): Scan {
    Scan(ts + sc.tokens, sc.rest)
  }

  /** `_read_tokens` started on `s` with a partial `token`, the `comment`
      flag and `required` tokens still wanted. It never yields more than
      `required` tokens. */
  function HeaderScan(s: seq<Byte>, token: seq<Byte>, comment: bool, required: nat): (r: Scan)
    ensures |r.tokens| <= required
    decreases |s|
  {
    if required == 0 then Scan([], s)
    else if s == [] then Scan(if token != [] then [token] else [], [])
    else
      var ch := s[0];
      if comment then HeaderScan(s[1..], token, !IsLineEnd(ch), required)
      else if ch == Hash then HeaderScan(s[1..], token, true, required)
      else if IsHeaderSpace(ch) then
        if token != [] then Prefixed([token], HeaderScan(s[1..], [], false, required - 1))
        else HeaderScan(s[1..], token, false, required)
      else HeaderScan(s[1..], token + [ch], false, required)
  }

  /** `_read_tokens(stream, required)`: reads one byte at a time; `consumed`
      is how far into `s` the stream position has moved. */
  method ReadTokens(s: seq<Byte>, required: nat) returns (tokens: seq<seq<Byte>>, consumed: nat)
    ensures consumed <= |s| && HeaderScan(s, [], false, required) == Scan(tokens, s[consumed..])
  {
    var token: seq<Byte> := [];
    var comment := false;
    var req: nat := required;
    tokens := [];
    consumed := 0;
    while req > 0
      invariant consumed <= |s| && req <= required
      invariant HeaderScan(s, [], false, required) == Prefixed(tokens, HeaderScan(s[consumed..], token, comment, req))
      decreases |s| - consumed
    {
      if consumed == |s| {
        break;
      }
      var ch := s[consumed];
      assert s[consumed..][1..] == s[consumed + 1..];
      consumed := consumed + 1;
      if comment {
        if IsLineEnd(ch) {
          comment := false;
        }
        continue;
      }
      if ch == Hash {
        comment := true;
        continue;
      }
      if IsHeaderSpace(ch) {
        if token != [] {
          tokens := tokens + [token];
          token := [];
          req := req - 1;
        }
      } else {
        token := token + [ch];
      }
    }
    if token != [] && req > 0 {
      tokens := tokens + [token];
    }
  }

  /** A comment is skipped up to and including the CR or LF that ends it. */
  lemma {:induction false} HeaderCommentSkipped(c: seq<Byte>, eol: Byte, t: seq<Byte>, token: seq<Byte>, required: nat)
    requires required > 0 && IsLineEnd(eol)
    requires forall i :: 0 <= i < |c| ==> !IsLineEnd(c[i])
    ensures HeaderScan([Hash] + c + [eol] + t, token, false, required) == HeaderScan(t, token, false, required)
  {
    assert ([Hash] + c + [eol] + t)[1..] == c + [eol] + t;
    HeaderCommentTail(c, eol, t, token, required);
  }

  lemma {:induction false} HeaderCommentTail(c: seq<Byte>, eol: Byte, t: seq<Byte>, token: seq<Byte>, required: nat)
    requires required > 0 && IsLineEnd(eol)
    requires forall i :: 0 <= i < |c| ==> !IsLineEnd(c[i])
    ensures HeaderScan(c + [eol] + t, token, true, required) == HeaderScan(t, token, false, required)
  {
    if c == [] {
      assert (c + [eol] + t)[1..] == t;
    } else {
      assert (c + [eol] + t)[1..] == c[1..] + [eol] + t;
      HeaderCommentTail(c[1..], eol, t, token, required);
    }
  }

  /** A word followed by a separator yields one token (the partial token
      extended by the word) and the scan goes on with one token fewer. */
  lemma {:induction false} HeaderWord(w: seq<Byte>, sep: Byte, t: seq<Byte>, token: seq<Byte>, required: nat)
    requires required > 0 && IsHeaderWord(w) && IsHeaderSpace(sep)
    ensures HeaderScan(w + ([sep] + t), token, false, required) ==
      Prefixed([token + w], HeaderScan(t, [], false, required - 1))
    decreases |w|
  {
    var s := w + ([sep] + t);
    assert s[0] == w[0] && s[1..] == w[1..] + ([sep] + t);
    assert HeaderScan(s, token, false, required) == HeaderScan(s[1..], token + [w[0]], false, required);
    assert token + [w[0]] + w[1..] == token + w;
    if |w| == 1 {
      var u := [sep] + t;
      assert s[1..] == u && u[0] == sep && u[1..] == t;
      assert HeaderScan(u, token + [w[0]], false, required) ==
        Prefixed([token + [w[0]]], HeaderScan(t, [], false, required - 1));
      assert w == [w[0]];
    } else {
      HeaderWord(w[1..], sep, t, token + [w[0]], required);
    }
  }

  /** What the header tokenizer leaves unread is a suffix of its input. */
  lemma {:induction false} HeaderScanSuffix(s: seq<Byte>, token: seq<Byte>, comment: bool, required: nat)
    ensures var r := HeaderScan(s, token, comment, required);
      |r.rest| <= |s| && r.rest == s[|s| - |r.rest|..]
    decreases |s|
  {
    if required > 0 && s != [] {
      var ch := s[0];
      var r := HeaderScan(s, token, comment, required);
      var r1: Scan;
      if comment || ch == Hash {
        r1 := HeaderScan(s[1..], token, if comment then !IsLineEnd(ch) else true, required);
        HeaderScanSuffix(s[1..], token, if comment then !IsLineEnd(ch) else true, required);
      } else if IsHeaderSpace(ch) && token != [] {
        r1 := HeaderScan(s[1..], [], false, required - 1);
        HeaderScanSuffix(s[1..], [], false, required - 1);
      } else {
        r1 := HeaderScan(s[1..], if IsHeaderSpace(ch) then token else token + [ch], false, required);
        HeaderScanSuffix(s[1..], if IsHeaderSpace(ch) then token else token + [ch], false, required);
      }
      assert r.rest == r1.rest;
      assert s[1..][|s[1..]| - |r1.rest|..] == s[|s| - |r1.rest|..];
    }
  }

  predicate AllHeaderWords(ts: seq<seq<Byte>>) {
    forall i :: 0 <= i < |ts| ==> IsHeaderWord(ts[i])
  }

  /** Every token the header tokenizer yields is a word, provided the partial
      token it starts from is empty or a word. */
  lemma {:induction false} HeaderScanWords(s: seq<Byte>, token: seq<Byte>, comment: bool, required: nat)
    requires token == [] || IsHeaderWord(token)
    ensures AllHeaderWords(HeaderScan(s, token, comment, required).tokens)
    decreases |s|
  {
    if required > 0 && s != [] {
      var ch := s[0];
      var r := HeaderScan(s, token, comment, required);
      if comment || ch == Hash {
        var c := if comment then !IsLineEnd(ch) else true;
        HeaderScanWords(s[1..], token, c, required);
        assert r == HeaderScan(s[1..], token, c, required);
      } else if IsHeaderSpace(ch) && token != [] {
        var r1 := HeaderScan(s[1..], [], false, required - 1);
        HeaderScanWords(s[1..], [], false, required - 1);
        assert r.tokens == [token] + r1.tokens;
        forall i | 0 <= i < |r.tokens| ensures IsHeaderWord(r.tokens[i]) {
          if i > 0 {
            assert r.tokens[i] == r1.tokens[i - 1];
          }
        }
      } else if IsHeaderSpace(ch) {
        HeaderScanWords(s[1..], token, false, required);
        assert r == HeaderScan(s[1..], token, false, required);
      } else {
        assert IsHeaderWord(token + [ch]);
        HeaderScanWords(s[1..], token + [ch], false, required);
        assert r == HeaderScan(s[1..], token + [ch], false, required);
      }
    } else if required > 0 && token != [] {
      assert HeaderScan(s, token, comment, required).tokens == [token];
    }
  }

  /** When fewer than `required` tokens come out, the whole input was read. */
  lemma {:induction false} HeaderScanExhausted(s: seq<Byte>, token: seq<Byte>, comment: bool, required: nat)
    ensures var r := HeaderScan(s, token, comment, required);
      |r.tokens| < required ==> r.rest == []
    decreases |s|
  {
    if required > 0 && s != [] {
      var ch := s[0];
      if comment || ch == Hash {
        HeaderScanExhausted(s[1..], token, if comment then !IsLineEnd(ch) else true, required);
      } else if IsHeaderSpace(ch) && token != [] {
        HeaderScanExhausted(s[1..], [], false, required - 1);
      } else {
        HeaderScanExhausted(s[1..], if IsHeaderSpace(ch) then token else token + [ch], false, required);
      }
    }
  }

  /** When `required > 0` tokens come out and input is left, the tokenizer
      stopped right after the separator that ended the last token. */
  lemma {:induction false} HeaderScanStopsAfterSeparator(s: seq<Byte>, token: seq<Byte>, comment: bool, required: nat)
    ensures var r := HeaderScan(s, token, comment, required);
      0 < required == |r.tokens| && r.rest != [] ==> |r.rest| < |s| && IsHeaderSpace(s[|s| - |r.rest| - 1])
    decreases |s|
  {
    if required > 0 && s != [] {
      var ch := s[0];
      var r := HeaderScan(s, token, comment, required);
      var r1: Scan;
      if comment || ch == Hash {
        r1 := HeaderScan(s[1..], token, if comment then !IsLineEnd(ch) else true, required);
        HeaderScanStopsAfterSeparator(s[1..], token, if comment then !IsLineEnd(ch) else true, required);
        assert r == r1;
      } else if IsHeaderSpace(ch) && token != [] {
        r1 := HeaderScan(s[1..], [], false, required - 1);
        HeaderScanStopsAfterSeparator(s[1..], [], false, required - 1);
        assert r == Prefixed([token], r1);
      } else {
        r1 := HeaderScan(s[1..], if IsHeaderSpace(ch) then token else token + [ch], false, required);
        HeaderScanStopsAfterSeparator(s[1..], if IsHeaderSpace(ch) then token else token + [ch], false, required);
        assert r == r1;
      }
      if |r1.rest| < |s| - 1 {
        assert s[1..][|s[1..]| - |r1.rest| - 1] == s[|s| - |r1.rest| - 1];
      }
    }
  }

  // ---------------------------------------------------------------------
  // The body tokenizer (`_ascii_value_generator`)

  /** `_ascii_value_generator` over the rest of the stream, started with a
      partial `token` and the `comment` flag. */
  function BodyScan(s: seq<Byte>, token: seq<Byte>, comment: bool): seq<seq<Byte>>
    decreases |s|
  {
    if s == [] then (if token != [] then [token] else [])
    else
      var ch := s[0];
      if comment then BodyScan(s[1..], token, !IsLineEnd(ch))
      else if ch == Hash then BodyScan(s[1..], token, true)
      else if IsSpace(ch) then
        (if token != [] then [token] else []) + BodyScan(s[1..], [], false)
      else BodyScan(s[1..], token + [ch], false)
  }

  /** `_ascii_value_generator(stream)`, run to the end of the stream. Reading
      in chunks of 4096 bytes does not change the tokens, so the loop reads
      one byte at a time. */
  method AsciiValueGenerator(s: seq<Byte>) returns (tokens: seq<seq<Byte>>)
    ensures tokens == BodyScan(s, [], false)
  {
    var token: seq<Byte> := [];
    var comment := false;
    tokens := [];
    var i := 0;
    while i < |s|
      invariant i <= |s|
      invariant BodyScan(s, [], false) == tokens + BodyScan(s[i..], token, comment)
    {
      var ch := s[i];
      assert s[i..][1..] == s[i + 1..];
      i := i + 1;
      if comment {
        if IsLineEnd(ch) {
          comment := false;
        }
        continue;
      }
      if ch == Hash {
        comment := true;
        continue;
      }
      if IsSpace(ch) {
        if token != [] {
          tokens := tokens + [token];
          token := [];
        }
      } else {
        token := token + [ch];
      }
    }
    if token != [] {
      tokens := tokens + [token];
    }
  }

  /** The tokens of a comment-free text ending in a separator are those of
      its pieces: tokenizing `a + b` is tokenizing `a`, then `b`. */
  lemma {:induction false} BodySplit(a: seq<Byte>, b: seq<Byte>, token: seq<Byte>)
    requires a != [] && IsSpace(a[|a| - 1])
    requires forall i :: 0 <= i < |a| ==> a[i] != Hash
    ensures BodyScan(a + b, token, false) == BodyScan(a, token, false) + BodyScan(b, [], false)
    decreases |a|
  {
    assert (a + b)[0] == a[0] && (a + b)[1..] == a[1..] + b;
    var lead: seq<seq<Byte>> := if token != [] then [token] else [];
    if |a| == 1 {
      assert a[1..] == [];
      assert BodyScan(a + b, token, false) == lead + BodyScan(b, [], false);
      assert BodyScan(a, token, false) == lead + BodyScan([], [], false);
    } else if IsSpace(a[0]) {
      BodySplit(a[1..], b, []);
      assert BodyScan(a + b, token, false) == lead + BodyScan(a[1..] + b, [], false);
      assert BodyScan(a, token, false) == lead + BodyScan(a[1..], [], false);
    } else {
      BodySplit(a[1..], b, token + [a[0]]);
      assert BodyScan(a + b, token, false) == BodyScan(a[1..] + b, token + [a[0]], false);
      assert BodyScan(a, token, false) == BodyScan(a[1..], token + [a[0]], false);
    }
  }

  /** A word followed by a separator is one token. */
  lemma {:induction false} BodyWord(w: seq<Byte>, sep: Byte, token: seq<Byte>)
    requires IsBodyWord(w) && IsSpace(sep)
    ensures BodyScan(w + [sep], token, false) == [token + w]
    decreases |w|
  {
    var s := w + [sep];
    assert s[0] == w[0] && s[1..] == w[1..] + [sep];
    assert BodyScan(s, token, false) == BodyScan(s[1..], token + [w[0]], false);
    if |w| == 1 {
      assert s[1..] == [sep] && [sep][1..] == [];
      assert BodyScan([sep], token + [w[0]], false) == [token + [w[0]]] + BodyScan([], [], false);
      assert token + w == token + [w[0]];
    } else {
      BodyWord(w[1..], sep, token + [w[0]]);
      assert token + [w[0]] + w[1..] == token + w;
    }
  }

  /** A comment is skipped up to and including the CR or LF that ends it. */
  lemma {:induction false} BodyCommentSkipped(c: seq<Byte>, eol: Byte, t: seq<Byte>, token: seq<Byte>)
    requires IsLineEnd(eol)
    requires forall i :: 0 <= i < |c| ==> !IsLineEnd(c[i])
    ensures BodyScan([Hash] + c + [eol] + t, token, false) == BodyScan(t, token, false)
  {
    assert ([Hash] + c + [eol] + t)[1..] == c + [eol] + t;
    BodyCommentTail(c, eol, t, token);
  }

  lemma {:induction false} BodyCommentTail(c: seq<Byte>, eol: Byte, t: seq<Byte>, token: seq<Byte>)
    requires IsLineEnd(eol)
    requires forall i :: 0 <= i < |c| ==> !IsLineEnd(c[i])
    ensures BodyScan(c + [eol] + t, token, true) == BodyScan(t, token, false)
  {
    if c == [] {
      assert (c + [eol] + t)[1..] == t;
    } else {
      assert (c + [eol] + t)[1..] == c[1..] + [eol] + t;
      BodyCommentTail(c[1..], eol, t, token);
    }
  }

  // ---------------------------------------------------------------------
  // Pixel samples

  /** `_normalize_value(value, max_value)`: the identity at 255, otherwise
      `round(value / max_value * 255)`. */
  function NormalizeValue(value: int, maxValue: int): (r: Result<int>)
    ensures maxValue == 255 ==> r == Ok(value)
    ensures r.Err? <==> maxValue == 0
  {
    if maxValue == 255 then Ok(value)
    else if maxValue == 0 then Err(ZeroDivisionError)
    else Ok(RoundHalfEven(value as real / maxValue as real * 255.0))
  }

  /** A sample at most `max_value` normalises into the byte range, 0 to 0
      and `max_value` to 255. */
  lemma NormalizeRange(value: nat, maxValue: nat)
    requires 0 < maxValue && value <= maxValue
    ensures NormalizeValue(value, maxValue).Ok?
    ensures 0 <= NormalizeValue(value, maxValue).value <= 255
    ensures NormalizeValue(0, maxValue) == Ok(0)
    ensures NormalizeValue(maxValue, maxValue) == Ok(255)
  {
    if maxValue != 255 {
      RescaledBounds(value, maxValue);
      RescaledEnds(maxValue);
    }
  }

  /** `value / max_value * 255` rounds into `[0, 255]`. */
  lemma RescaledBounds(value: nat, maxValue: nat)
    requires 0 < maxValue && value <= maxValue
    ensures 0 <= RoundHalfEven(value as real / maxValue as real * 255.0) <= 255
  {
    var q := value as real / maxValue as real;
    assert 0.0 <= q <= 1.0 by {
      assert q * maxValue as real == value as real;
    }
    assert 0.0 <= q * 255.0 <= 255.0;
    RoundMonotone(0.0, q * 255.0);
    RoundMonotone(q * 255.0, 255.0);
    RoundOfInteger(0);
    RoundOfInteger(255);
  }

  /** 0 and `max_value` rescale to exactly 0 and 255. */
  lemma RescaledEnds(maxValue: nat)
    requires 0 < maxValue
    ensures RoundHalfEven(0 as real / maxValue as real * 255.0) == 0
    ensures RoundHalfEven(maxValue as real / maxValue as real * 255.0) == 255
  {
    assert maxValue as real / maxValue as real == 1.0;
    assert 0 as real / maxValue as real == 0.0;
    RoundOfInteger(0);
    RoundOfInteger(255);
  }

  /** One value of the ASCII body: `int(token)`, normalised, stored into a
      `bytearray` (which refuses values outside `0..255`). */
  function AsciiSample(token: seq<Byte>, maxValue: int): Result<Byte> {
    if !IsDecimal(token) then Err(ValueError)
    else
      match NormalizeValue(DecimalValue(token), maxValue)
      case Err(e) => Err(e)
      case Ok(v) => if 0 <= v < 256 then Ok(v) else Err(ValueError)
  }

  function Cons(v: Byte, r: Result<seq<Byte>>): Result<seq<Byte>> {
    match r
    case Ok(vs) => Ok([v] + vs)
    case Err(e) => Err(e)
  }

  /** `_read_ascii_pixels` on the token stream: each token is decoded as it is
      produced; the first `total` become samples; one more token is decoded
      before the loop stops; too few tokens is a format error. */
  function AsciiSamples(tokens: seq<seq<Byte>>, total: nat, maxValue: int): Result<seq<Byte>>
    decreases |tokens|
  {
    if tokens == [] then (if total == 0 then Ok([]) else Err(FormatError))
    else if !IsAscii(tokens[0]) then Err(ValueError)
    else if total == 0 then Ok([])
    else
      match AsciiSample(tokens[0], maxValue)
      case Err(e) => Err(e)
      case Ok(v) => Cons(v, AsciiSamples(tokens[1..], total - 1, maxValue))
  }

  function Append(prefix: seq<Byte>, r: Result<seq<Byte>>): Result<seq<Byte>> {
    match r
    case Ok(vs) => Ok(prefix + vs)
    case Err(e) => Err(e)
  }

  lemma AppendEmpty(r: Result<seq<Byte>>)
    ensures Append([], r) == r
  {
    if r.Ok? {
      assert [] + r.value == r.value;
    }
  }

  lemma AppendCons(prefix: seq<Byte>, v: Byte, r: Result<seq<Byte>>)
    ensures Append(prefix, Cons(v, r)) == Append(prefix + [v], r)
  {
    if r.Ok? {
      assert prefix + ([v] + r.value) == prefix + [v] + r.value;
    }
  }

  /** `_read_ascii_pixels`: fills a `bytearray(total_values)` with an `idx`
      counter. */
  method ReadAsciiPixels(tokens: seq<seq<Byte>>, total: nat, maxValue: int) returns (r: Result<seq<Byte>>)
    ensures r == AsciiSamples(tokens, total, maxValue)
  {
    var data := new Byte[total](_ => 0);
    var idx := 0;
    AppendEmpty(AsciiSamples(tokens, total, maxValue));
    while idx < |tokens|
      invariant idx <= |tokens| && idx <= total
      invariant AsciiSamples(tokens, total, maxValue) == Append(data[..idx], AsciiSamples(tokens[idx..], total - idx, maxValue))
    {
      var token := tokens[idx];
      assert tokens[idx..][0] == token && tokens[idx..][1..] == tokens[idx + 1..];
      if !IsAscii(token) {
        return Err(ValueError);
      }
      if idx >= total {
        assert AsciiSamples(tokens[idx..], total - idx, maxValue) == Ok([]);
        break;
      }
      if !IsDecimal(token) {
        return Err(ValueError);
      }
      var value := DecimalValue(token);
      var n := NormalizeValue(value, maxValue);
      if n.Err? {
        return Err(n.error);
      }
      if !(0 <= n.value < 256) {
        return Err(ValueError);
      }
      AppendCons(data[..idx], n.value, AsciiSamples(tokens[idx + 1..], total - idx - 1, maxValue));
      data[idx] := n.value;
      assert data[..idx + 1] == data[..idx] + [n.value];
      idx := idx + 1;
    }
    if idx == |tokens| {
      assert tokens[idx..] == [];
    }
    if idx != total {
      return Err(FormatError);
    }
    assert data[..] == data[..idx] + [];
    return Ok(data[..]);
  }

  /** Tokens after the one the reader stops at are never looked at. */
  lemma {:induction false} AsciiSamplesIgnoreExtra(tokens: seq<seq<Byte>>, extra: seq<seq<Byte>>, total: nat, maxValue: int)
    requires |tokens| > total
    ensures AsciiSamples(tokens + extra, total, maxValue) == AsciiSamples(tokens, total, maxValue)
    decreases total
  {
    assert (tokens + extra)[0] == tokens[0];
    if total > 0 {
      assert (tokens + extra)[1..] == tokens[1..] + extra;
      AsciiSamplesIgnoreExtra(tokens[1..], extra, total - 1, maxValue);
    }
  }

  /** When every token is a valid sample, fewer than `total` tokens is a
      format error, and otherwise the samples are the first `total` values. */
  lemma {:induction false} AsciiSamplesCount(tokens: seq<seq<Byte>>, total: nat, maxValue: int)
    requires forall i :: 0 <= i < |tokens| ==> IsAscii(tokens[i]) && AsciiSample(tokens[i], maxValue).Ok?
    ensures |tokens| < total ==> AsciiSamples(tokens, total, maxValue) == Err(FormatError)
    ensures |tokens| >= total ==>
      var r := AsciiSamples(tokens, total, maxValue);
      r.Ok? && |r.value| == total && forall i :: 0 <= i < total ==> r.value[i] == AsciiSample(tokens[i], maxValue).value
    decreases |tokens|
  {
    if tokens != [] && total > 0 {
      AsciiSamplesCount(tokens[1..], total - 1, maxValue);
      var v := AsciiSample(tokens[0], maxValue).value;
      assert AsciiSamples(tokens, total, maxValue) == Cons(v, AsciiSamples(tokens[1..], total - 1, maxValue));
    } else if tokens != [] {
      assert IsAscii(tokens[0]);
    }
  }

  /** `_read_binary_pixels`: `stream.read(total_values)`, which must return
      that many bytes; stored as they are at 255, otherwise each rescaled by
      `round(b * (255 / max_value))` into a `bytearray`. */
  function BinarySamples(s: seq<Byte>, total: nat, maxValue: int): (r: Result<seq<Byte>>)
    ensures r.Ok? ==> |r.value| == total
    ensures |s| < total <==> r == Err(FormatError)
    ensures |s| >= total && maxValue == 255 ==> r == Ok(s[..total])
  {
    if |s| < total then Err(FormatError)
    else if maxValue == 255 then Ok(s[..total])
    else if maxValue == 0 then Err(ZeroDivisionError)
    else if forall i :: 0 <= i < total ==> 0 <= BinaryScaled(s[i], maxValue) < 256 then
      Ok(seq(total, i requires 0 <= i < total => BinaryScaled(s[i], maxValue)))
    else Err(ValueError)
  }

  function BinaryScaled(b: Byte, maxValue: int): int
    requires maxValue != 0
  {
    RoundHalfEven(b as real * (255.0 / maxValue as real))
  }

  /** `_read_binary_pixels`. */
  method ReadBinaryPixels(s: seq<Byte>, total: nat, maxValue: int) returns (r: Result<seq<Byte>>)
    ensures r == BinarySamples(s, total, maxValue)
  {
    var raw := s[..Min(total, |s|)];
    if |raw| != total {
      return Err(FormatError);
    }
    if maxValue == 255 {
      return Ok(raw);
    }
    if maxValue == 0 {
      return Err(ZeroDivisionError);
    }
    var out := new Byte[total];
    for i := 0 to total
      invariant forall j :: 0 <= j < i ==> out[j] == BinaryScaled(s[j], maxValue)
    {
      var v := BinaryScaled(raw[i], maxValue);
      if !(0 <= v < 256) {
        return Err(ValueError);
      }
      out[i] := v;
    }
    assert out[..] == seq(total, i requires 0 <= i < total => BinaryScaled(s[i], maxValue));
    return Ok(out[..]);
  }

  // ---------------------------------------------------------------------
  // The header (`_read_header`)

  datatype Header = Header(binary: bool, width: nat, height: nat, maxValue: nat, body: seq<Byte>)

  /** `_read_header` on the whole file: the magic number, then the three
      header tokens, decoded and converted with `int()`; `body` is what is
      left of the stream after the separator that ends the third token. */
  function ParseHeader(f: seq<Byte>): (r: Result<Header>)
    ensures |f| < 2 ==> r.Err?
    ensures IsAscii(f[..Min(2, |f|)]) && f[..Min(2, |f|)] != [80, 51] && f[..Min(2, |f|)] != [80, 54] ==> r == Err(FormatError)
    ensures r.Ok? ==> f[0] == 80 && (f[1] == 51 || f[1] == 54) && r.value.binary == (f[1] == 54)
  {
    var magic := f[..Min(2, |f|)];
    if !IsAscii(magic) then Err(ValueError)
    else if magic != [80, 51] && magic != [80, 54] then Err(FormatError)
    else
      var sc := HeaderScan(f[2..], [], false, 3);
      var ts := sc.tokens;
      if exists i :: 0 <= i < |ts| && !IsAscii(ts[i]) then Err(ValueError)
      else if |ts| < 3 then Err(FormatError)
      else if !(IsDecimal(ts[0]) && IsDecimal(ts[1]) && IsDecimal(ts[2])) then Err(ValueError)
      else Ok(Header(magic == [80, 54], DecimalValue(ts[0]), DecimalValue(ts[1]), DecimalValue(ts[2]), sc.rest))
  }

  /** With the magic right and every token ASCII, fewer than three header
      tokens is an incomplete header. */
  lemma HeaderIncomplete(f: seq<Byte>)
    requires |f| >= 2 && (f[..2] == [80, 51] || f[..2] == [80, 54])
    requires forall i :: 0 <= i < |HeaderScan(f[2..], [], false, 3).tokens| ==> IsAscii(HeaderScan(f[2..], [], false, 3).tokens[i])
    requires |HeaderScan(f[2..], [], false, 3).tokens| < 3
    ensures ParseHeader(f) == Err(FormatError)
  {
    assert f[..Min(2, |f|)] == f[..2];
  }

  /** `_read_header`. */
  method ReadHeader(f: seq<Byte>) returns (r: Result<Header>)
    ensures r == ParseHeader(f)
  {
    var magic := f[..Min(2, |f|)];
    if !IsAscii(magic) {
      return Err(ValueError);
    }
    if magic != [80, 51] && magic != [80, 54] {
      return Err(FormatError);
    }
    var tokens, consumed := ReadTokens(f[2..], 3);
    var i := 0;
    while i < |tokens|
      invariant i <= |tokens|
      invariant forall j :: 0 <= j < i ==> IsAscii(tokens[j])
    {
      if !IsAscii(tokens[i]) {
        return Err(ValueError);
      }
      i := i + 1;
    }
    if |tokens| < 3 {
      return Err(FormatError);
    }
    if !(IsDecimal(tokens[0]) && IsDecimal(tokens[1]) && IsDecimal(tokens[2])) {
      return Err(ValueError);
    }
    return Ok(Header(magic == [80, 54], DecimalValue(tokens[0]), DecimalValue(tokens[1]), DecimalValue(tokens[2]), f[2..][consumed..]));
  }

  // ---------------------------------------------------------------------
  // read_ppm

  datatype Decoded = Decoded(width: nat, height: nat, maxValue: int, data: seq<Byte>)

  /** `read_ppm` on the bytes of a file. A successful read has
      `width * height * 3` samples and a `max_value` of at most 255. */
  function DecodePpm(f: seq<Byte>): (r: Result<Decoded>)
    ensures r.Ok? ==> |r.value.data| == r.value.width * r.value.height * 3 && r.value.maxValue <= 255
  {
    match ParseHeader(f)
    case Err(e) => Err(e)
    case Ok(h) =>
      var total := h.width * h.height * 3;
      var body := if h.binary then BinarySamples(h.body, total, h.maxValue)
                  else AsciiSamples(BodyScan(h.body, [], false), total, h.maxValue);
      match body
      case Err(e) => Err(e)
      case Ok(data) =>
        AsciiLength(BodyScan(h.body, [], false), total, h.maxValue);
        Ok(Decoded(h.width, h.height, Min(h.maxValue, 255), data))
  }

  lemma {:induction false} AsciiLength(tokens: seq<seq<Byte>>, total: nat, maxValue: int)
    ensures AsciiSamples(tokens, total, maxValue).Ok? ==> |AsciiSamples(tokens, total, maxValue).value| == total
    decreases |tokens|
  {
    if tokens != [] && total > 0 {
      AsciiLength(tokens[1..], total - 1, maxValue);
    }
  }

  /** `read_ppm`: the image of a well-formed file, or the error it raises. */
  method ReadPpm(f: seq<Byte>) returns (r: Result<ImageBuffer>)
    ensures r.Err? <==> DecodePpm(f).Err?
    ensures r.Err? ==> r.error == DecodePpm(f).error
    ensures r.Ok? ==>
      && fresh(r.value) && fresh(r.value.data) && r.value.Valid()
      && r.value.width == DecodePpm(f).value.width && r.value.height == DecodePpm(f).value.height
      && r.value.maxValue == DecodePpm(f).value.maxValue && r.value.data[..] == DecodePpm(f).value.data
  {
    var header := ReadHeader(f);
    if header.Err? {
      return Err(header.error);
    }
    var h := header.value;
    var totalValues := h.width * h.height * 3;
    var data: Result<seq<Byte>>;
    if !h.binary {
      var tokens := AsciiValueGenerator(h.body);
      data := ReadAsciiPixels(tokens, totalValues, h.maxValue);
    } else {
      data := ReadBinaryPixels(h.body, totalValues, h.maxValue);
    }
    if data.Err? {
      return Err(data.error);
    }
    assert DecodePpm(f) == Ok(Decoded(h.width, h.height, Min(h.maxValue, 255), data.value));
    var d := data.value;
    var a := new Byte[|d|](i requires 0 <= i < |d| => d[i]);
    assert a[..] == d;
    var img := new ImageBuffer(h.width, h.height, Min(h.maxValue, 255), a);
    return Ok(img);
  }

  // ---------------------------------------------------------------------
  // write_ppm

  function Magic(binary: bool): seq<Byte> {
    if binary then [80, 54] else [80, 51]
  }

  /** The header `f"{magic}\n{width} {height}\n{max_value}\n"`, ASCII-encoded,
      followed by `s`. */
  function HeaderThen(binary: bool, width: nat, height: nat, maxValue: int, s: seq<Byte>): seq<Byte> {
    Magic(binary) + ([10] + (ShowNat(width) + ([32] + (ShowNat(height) + ([10] + (ShowInt(maxValue) + ([10] + s)))))))
  }

  /** The header alone. */
  function HeaderBytes(binary: bool, width: nat, height: nat, maxValue: int): seq<Byte> {
    HeaderThen(binary, width, height, maxValue, [])
  }

  lemma HeaderThenAppend(binary: bool, width: nat, height: nat, maxValue: int, s: seq<Byte>)
    ensures HeaderBytes(binary, width, height, maxValue) + s == HeaderThen(binary, width, height, maxValue, s)
  {
    Reassociate(Magic(binary), ShowNat(width), ShowNat(height), ShowInt(maxValue), s);
  }

  /** The reassociation `HeaderThenAppend` needs, over plain sequences. */
  lemma Reassociate(m: seq<Byte>, a: seq<Byte>, b: seq<Byte>, c: seq<Byte>, s: seq<Byte>)
    ensures (m + ([10] + (a + ([32] + (b + ([10] + (c + ([10] + [])))))))) + s
         == m + ([10] + (a + ([32] + (b + ([10] + (c + ([10] + s)))))))
  {
    var l0: seq<Byte> := [10] + [];
    var l1 := c + l0;
    var l2 := [10] + l1;
    var l3 := b + l2;
    var l4 := [32] + l3;
    var l5 := a + l4;
    var l6 := [10] + l5;
    assert l0 + s == [10] + s;
    assert l1 + s == c + (l0 + s);
    assert l2 + s == [10] + (l1 + s);
    assert l3 + s == b + (l2 + s);
    assert l4 + s == [32] + (l3 + s);
    assert l5 + s == a + (l4 + s);
    assert l6 + s == [10] + (l5 + s);
    assert (m + l6) + s == m + (l6 + s);
  }

  /** `f"{r} {g} {b}"`. */
  function Triple(r: Byte, g: Byte, b: Byte): seq<Byte> {
    ShowNat(r) + [32] + ShowNat(g) + [32] + ShowNat(b)
  }

  /** The triples of one row of samples. */
  function RowTriples(row: seq<Byte>): (ts: seq<seq<Byte>>)
    requires |row| % 3 == 0
    ensures |ts| == |row| / 3
  {
    seq(|row| / 3, k requires 0 <= k < |row| / 3 => Triple(row[3 * k], row[3 * k + 1], row[3 * k + 2]))
  }

  lemma RowTriplesSnoc(row: seq<Byte>, x: nat)
    requires x % 3 == 0 && x + 3 <= |row|
    ensures RowTriples(row[..x + 3]) == RowTriples(row[..x]) + [Triple(row[x], row[x + 1], row[x + 2])]
  {
  }

  /** `" ".join(parts)`. */
  function Join(parts: seq<seq<Byte>>): seq<Byte> {
    if parts == [] then []
    else if |parts| == 1 then parts[0]
    else parts[0] + [32] + Join(parts[1..])
  }

  /** Where row `y` starts in a buffer whose rows are `rowLength` bytes long. */
  function RowStart(rowLength: nat, y: nat): nat {
    if y == 0 then 0 else RowStart(rowLength, y - 1) + rowLength
  }

  lemma RowStartStep(rowLength: nat, y: nat)
    ensures RowStart(rowLength, y + 1) == RowStart(rowLength, y) + rowLength
  {
  }

  lemma {:induction false} RowStartIsProduct(rowLength: nat, y: nat)
    ensures RowStart(rowLength, y) == y * rowLength
  {
    if y > 0 {
      RowStartIsProduct(rowLength, y - 1);
      assert y * rowLength == (y - 1) * rowLength + rowLength;
    }
  }

  lemma {:induction false} RowStartMonotone(rowLength: nat, y: nat, z: nat)
    requires y <= z
    ensures RowStart(rowLength, y) <= RowStart(rowLength, z)
    decreases z - y
  {
    if y < z {
      RowStartMonotone(rowLength, y, z - 1);
    }
  }

  /** One line of the P3 body: the row's triples joined by spaces, then LF. */
  function AsciiRow(data: seq<Byte>, width: nat, y: nat): seq<Byte>
    requires RowStart(width * 3, y) + width * 3 <= |data|
  {
    Join(RowTriples(data[RowStart(width * 3, y)..RowStart(width * 3, y) + width * 3])) + [10]
  }

  /** The lines of the first `rows` rows. */
  function AsciiRows(data: seq<Byte>, width: nat, rows: nat): seq<Byte>
    requires RowStart(width * 3, rows) <= |data|
  {
    if rows == 0 then []
    else
      RowStartStep(width * 3, rows - 1);
      AsciiRows(data, width, rows - 1) + AsciiRow(data, width, rows - 1)
  }

  lemma RowStartTotal(width: nat, height: nat)
    ensures RowStart(width * 3, height) == width * height * 3
  {
    RowStartIsProduct(width * 3, height);
    assert height * (width * 3) == width * height * 3;
  }

  /** `write_ppm` on an image: its header, then the raw samples (P6) or one
      text line per row (P3). */
  function EncodePpm(width: nat, height: nat, maxValue: int, data: seq<Byte>, binary: bool): seq<Byte>
    requires |data| == width * height * 3
  {
    RowStartTotal(width, height);
    HeaderThen(binary, width, height, maxValue, if binary then data else AsciiRows(data, width, height))
  }

  /** `_write_ascii_pixels`: one line per row. */
  method WriteAsciiPixels(img: ImageBuffer) returns (out: seq<Byte>)
    requires img.Valid()
    ensures RowStart(img.width * 3, img.height) == img.data.Length
    ensures out == AsciiRows(img.data[..], img.width, img.height)
  {
    RowStartTotal(img.width, img.height);
    out := [];
    for y := 0 to img.height
      invariant RowStart(img.width * 3, y) <= img.data.Length
      invariant out == AsciiRows(img.data[..], img.width, y)
    {
      RowStartMonotone(img.width * 3, y + 1, img.height);
      var rowValues := RowValues(img, y);
      out := out + (Join(rowValues) + [10]);
    }
  }

  /** The `row_values` list of row `y`: one `"r g b"` triple per pixel. */
  method RowValues(img: ImageBuffer, y: nat) returns (rowValues: seq<seq<Byte>>)
    requires RowStart(img.width * 3, y + 1) <= img.data.Length
    ensures RowStart(img.width * 3, y) + img.width * 3 <= img.data.Length
    ensures rowValues == RowTriples(img.data[RowStart(img.width * 3, y)..RowStart(img.width * 3, y) + img.width * 3])
  {
    var rowLength := img.width * 3;
    RowStartStep(rowLength, y);
    rowValues := [];
    var offset := y * rowLength;
    RowStartIsProduct(rowLength, y);
    var row := img.data[offset..offset + rowLength];
    var x := 0;
    ghost var k := 0;
    while x < rowLength
      invariant x == 3 * k && k <= img.width
      invariant rowValues == RowTriples(row[..x])
    {
      RowTriplesSnoc(row, x);
      rowValues := rowValues + [Triple(row[x], row[x + 1], row[x + 2])];
      x := x + 3;
      k := k + 1;
    }
    assert row[..x] == row;
  }

  /** `write_ppm`: the bytes written to the file. */
  method WritePpm(img: ImageBuffer, binary: bool) returns (out: seq<Byte>)
    requires img.Valid()
    ensures out == EncodePpm(img.width, img.height, img.maxValue, img.data[..], binary)
  {
    var header := HeaderBytes(binary, img.width, img.height, img.maxValue);
    if binary {
      out := header + img.data[..];
    } else {
      var body := WriteAsciiPixels(img);
      out := header + body;
    }
    HeaderThenAppend(binary, img.width, img.height, img.maxValue, out[|header|..]);
    assert out == header + out[|header|..];
  }

  // ---------------------------------------------------------------------
  // Round trip

  function ShowAll(xs: seq<Byte>): (ts: seq<seq<Byte>>)
    ensures |ts| == |xs|
  {
    seq(|xs|, i requires 0 <= i < |xs| => ShowNat(xs[i]))
  }

  lemma ShowAllAppend(a: seq<Byte>, b: seq<Byte>)
    ensures ShowAll(a + b) == ShowAll(a) + ShowAll(b)
  {
  }

  predicate HashFree(s: seq<Byte>) {
    forall i :: 0 <= i < |s| ==> s[i] != Hash
  }

  /** The header tokenizer run on an encoded header yields the three
      numerals and stops at the start of the body. */
  lemma HeaderTokensOf(binary: bool, width: nat, height: nat, maxValue: nat, body: seq<Byte>)
    ensures var f := HeaderThen(binary, width, height, maxValue, body);
      |f| >= 2 && f[..2] == Magic(binary) &&
      HeaderScan(f[2..], [], false, 3) == Scan([ShowNat(width), ShowNat(height), ShowNat(maxValue)], body)
  {
    HeaderWordsTokens(Magic(binary), ShowNat(width), ShowNat(height), ShowNat(maxValue), body);
  }

  /** The header text with three words in place of the numerals. */
  lemma HeaderWordsTokens(magic: seq<Byte>, w: seq<Byte>, h: seq<Byte>, m: seq<Byte>, body: seq<Byte>)
    requires |magic| == 2 && IsHeaderWord(w) && IsHeaderWord(h) && IsHeaderWord(m)
    ensures var f := magic + ([10] + (w + ([32] + (h + ([10] + (m + ([10] + body)))))));
      |f| >= 2 && f[..2] == magic &&
      HeaderScan(f[2..], [], false, 3) == Scan([w, h, m], body)
  {
    var tail := m + ([10] + body);
    var mid := h + ([10] + tail);
    var after := w + ([32] + mid);
    var f := magic + ([10] + after);
    assert f[..2] == magic;
    assert f[2..] == [10] + after;
    assert f[2..][0] == 10 && f[2..][1..] == after;
    assert HeaderScan(f[2..], [], false, 3) == HeaderScan(after, [], false, 3);
    HeaderWord(w, 32, mid, [], 3);
    HeaderWord(h, 10, tail, [], 2);
    HeaderWord(m, 10, body, [], 1);
    assert [] + w == w && [] + h == h && [] + m == m;
  }

  /** The header of an encoded file reads back as its three numbers, and the
      rest of the stream is exactly the body. */
  lemma HeaderRoundTrip(binary: bool, width: nat, height: nat, maxValue: nat, body: seq<Byte>)
    ensures ParseHeader(HeaderThen(binary, width, height, maxValue, body)) ==
      Ok(Header(binary, width, height, maxValue, body))
  {
    HeaderTokensOf(binary, width, height, maxValue, body);
    DecimalRoundTrip(width);
    DecimalRoundTrip(height);
    DecimalRoundTrip(maxValue);
    ParseHeaderOf(HeaderThen(binary, width, height, maxValue, body), binary,
      ShowNat(width), ShowNat(height), ShowNat(maxValue), body);
  }

  /** A file whose first two bytes are a magic number and whose next three
      header tokens are ASCII numerals parses to those numbers. */
  lemma ParseHeaderOf(f: seq<Byte>, binary: bool, w: seq<Byte>, h: seq<Byte>, m: seq<Byte>, body: seq<Byte>)
    requires |f| >= 2 && f[..2] == Magic(binary)
    requires HeaderScan(f[2..], [], false, 3) == Scan([w, h, m], body)
    requires IsDecimal(w) && IsDecimal(h) && IsDecimal(m) && IsAscii(w) && IsAscii(h) && IsAscii(m)
    ensures ParseHeader(f) == Ok(Header(binary, DecimalValue(w), DecimalValue(h), DecimalValue(m), body))
  {
    assert f[..Min(2, |f|)] == Magic(binary);
    var ts := [w, h, m];
    assert forall i :: 0 <= i < |ts| ==> IsAscii(ts[i]);
  }

  /** The tokens of one `"r g b"` triple followed by a separator. */
  lemma TripleTokens(r: Byte, g: Byte, b: Byte, sep: Byte, t: seq<Byte>)
    requires IsSpace(sep)
    ensures BodyScan(Triple(r, g, b) + ([sep] + t), [], false) == ShowAll([r, g, b]) + BodyScan(t, [], false)
  {
    ThreeWordTokens(ShowNat(r), ShowNat(g), ShowNat(b), sep, t);
    assert ShowAll([r, g, b]) == [ShowNat(r), ShowNat(g), ShowNat(b)];
  }

  /** Three words separated by spaces, then a separator, tokenize as the three
      words. */
  lemma ThreeWordTokens(a: seq<Byte>, b: seq<Byte>, c: seq<Byte>, sep: Byte, t: seq<Byte>)
    requires IsBodyWord(a) && IsBodyWord(b) && IsBodyWord(c) && IsSpace(sep)
    ensures BodyScan(a + [32] + b + [32] + c + ([sep] + t), [], false) == [a, b, c] + BodyScan(t, [], false)
  {
    var s3 := (c + [sep]) + t;
    var s2 := (b + [32]) + s3;
    assert a + [32] + b + [32] + c + ([sep] + t) == (a + [32]) + s2;
    BodySplit(a + [32], s2, []);
    BodySplit(b + [32], s3, []);
    BodySplit(c + [sep], t, []);
    BodyWord(a, 32, []);
    BodyWord(b, 32, []);
    BodyWord(c, sep, []);
    assert [] + a == a && [] + b == b && [] + c == c;
  }

  lemma RowTriplesFront(row: seq<Byte>)
    requires |row| % 3 == 0 && |row| >= 3
    ensures RowTriples(row) == [Triple(row[0], row[1], row[2])] + RowTriples(row[3..])
  {
    var ts, ts1 := RowTriples(row), RowTriples(row[3..]);
    forall k | 0 <= k < |ts1| ensures ts1[k] == ts[k + 1] {
      assert row[3..][3 * k] == row[3 * (k + 1)];
      assert row[3..][3 * k + 1] == row[3 * (k + 1) + 1];
      assert row[3..][3 * k + 2] == row[3 * (k + 1) + 2];
    }
  }

  /** The tokens of a row line are the row's samples, in order. */
  lemma {:induction false} RowTokens(row: seq<Byte>, t: seq<Byte>)
    requires |row| % 3 == 0
    ensures BodyScan(Join(RowTriples(row)) + ([10] + t), [], false) == ShowAll(row) + BodyScan(t, [], false)
    decreases |row|
  {
    if |row| == 0 {
      EmptyRowTokens(row, t);
    } else {
      if |row| == 3 {
        SingleTripleRow(row, t);
      } else {
        RowTokens(row[3..], t);
        LongRowTokens(row, t);
      }
    }
  }

  /** One step of `RowTokens`: the first triple, then the rest of the row. */
  lemma LongRowTokens(row: seq<Byte>, t: seq<Byte>)
    requires |row| % 3 == 0 && |row| > 3
    requires BodyScan(Join(RowTriples(row[3..])) + ([10] + t), [], false) == ShowAll(row[3..]) + BodyScan(t, [], false)
    ensures BodyScan(Join(RowTriples(row)) + ([10] + t), [], false) == ShowAll(row) + BodyScan(t, [], false)
  {
    var rest := row[3..];
    var r, g, b := row[0], row[1], row[2];
    assert ShowAll(row) == ShowAll([r, g, b]) + ShowAll(rest) by {
      assert row == [r, g, b] + rest;
      ShowAllAppend([r, g, b], rest);
    }
    var tail := Join(RowTriples(rest)) + ([10] + t);
    assert Join(RowTriples(row)) + ([10] + t) == Triple(r, g, b) + ([32] + tail) by {
      RowTriplesFront(row);
      RowTokensStep(Triple(r, g, b), RowTriples(rest), t);
    }
    assert BodyScan(Triple(r, g, b) + ([32] + tail), [], false)
      == ShowAll([r, g, b]) + BodyScan(tail, [], false) by {
      TripleTokens(r, g, b, 32, tail);
    }
  }

  lemma EmptyRowTokens(row: seq<Byte>, t: seq<Byte>)
    requires |row| == 0
    ensures BodyScan(Join(RowTriples(row)) + ([10] + t), [], false) == ShowAll(row) + BodyScan(t, [], false)
  {
    assert RowTriples(row) == [];
    assert Join(RowTriples(row)) + ([10] + t) == [10] + t;
    assert ([10] + t)[0] == 10 && ([10] + t)[1..] == t;
    assert ShowAll(row) == [];
    assert BodyScan([10] + t, [], false) == [] + BodyScan(t, [], false);
  }

  lemma SingleTripleRow(row: seq<Byte>, t: seq<Byte>)
    requires |row| == 3
    ensures BodyScan(Join(RowTriples(row)) + ([10] + t), [], false) == ShowAll(row) + BodyScan(t, [], false)
  {
    var ts := RowTriples(row);
    assert ts == [Triple(row[0], row[1], row[2])];
    assert Join(ts) == Triple(row[0], row[1], row[2]);
    TripleTokens(row[0], row[1], row[2], 10, t);
    assert row == [row[0], row[1], row[2]];
  }

  lemma RowTokensStep(tr: seq<Byte>, ts1: seq<seq<Byte>>, t: seq<Byte>)
    requires |ts1| >= 1
    ensures Join([tr] + ts1) + ([10] + t) == tr + ([32] + (Join(ts1) + ([10] + t)))
  {
    var ts := [tr] + ts1;
    assert ts[0] == tr && ts[1..] == ts1;
    assert Join(ts) == tr + [32] + Join(ts1);
    AppendAssoc(tr, Join(ts1), [10] + t);
  }

  lemma AppendAssoc(a: seq<Byte>, b: seq<Byte>, c: seq<Byte>)
    ensures a + [32] + b + c == a + ([32] + (b + c))
  {
  }

  lemma TripleHashFree(r: Byte, g: Byte, b: Byte)
    ensures HashFree(Triple(r, g, b))
  {
    assert HashFree(ShowNat(r)) && HashFree(ShowNat(g)) && HashFree(ShowNat(b));
  }

  lemma HashFreeAppend(a: seq<Byte>, b: seq<Byte>)
    requires HashFree(a) && HashFree(b)
    ensures HashFree(a + b)
  {
  }

  lemma {:induction false} JoinHashFree(parts: seq<seq<Byte>>)
    requires forall k :: 0 <= k < |parts| ==> HashFree(parts[k])
    ensures HashFree(Join(parts))
  {
    if |parts| > 1 {
      JoinHashFree(parts[1..]);
      HashFreeAppend(parts[0], [32]);
      HashFreeAppend(parts[0] + [32], Join(parts[1..]));
    }
  }

  /** A row line holds no `#` and ends with a line feed. */
  lemma AsciiRowEnd(data: seq<Byte>, width: nat, y: nat)
    requires RowStart(width * 3, y) + width * 3 <= |data|
    ensures var s := AsciiRow(data, width, y);
      HashFree(s) && s != [] && s[|s| - 1] == 10
  {
    var n := width * 3;
    var ts := RowTriples(data[RowStart(n, y)..RowStart(n, y) + n]);
    assert HashFree(Join(ts)) by {
      RowTriplesHashFree(data[RowStart(n, y)..RowStart(n, y) + n]);
      JoinHashFree(ts);
    }
    HashFreeAppend(Join(ts), [10]);
  }

  lemma RowTriplesHashFree(row: seq<Byte>)
    requires |row| % 3 == 0
    ensures var ts := RowTriples(row); forall k :: 0 <= k < |ts| ==> HashFree(ts[k])
  {
    var ts := RowTriples(row);
    forall k | 0 <= k < |ts| ensures HashFree(ts[k]) {
      TripleHashFree(row[3 * k], row[3 * k + 1], row[3 * k + 2]);
    }
  }

  /** Appending a line to text that ends in a separator. */
  lemma AppendLine(prev: seq<Byte>, line: seq<Byte>)
    requires HashFree(prev) && HashFree(line) && line != [] && line[|line| - 1] == 10
    ensures var s := prev + line; HashFree(s) && s != [] && s[|s| - 1] == 10
  {
    HashFreeAppend(prev, line);
  }

  /** The P3 body holds no `#` and, unless empty, ends with a line feed. */
  lemma {:induction false} AsciiRowsEnd(data: seq<Byte>, width: nat, rows: nat)
    requires RowStart(width * 3, rows) <= |data|
    ensures var s := AsciiRows(data, width, rows);
      HashFree(s) && (rows > 0 ==> s != [] && s[|s| - 1] == 10)
  {
    if rows > 0 {
      var y := rows - 1;
      RowStartStep(width * 3, y);
      var prev, line := AsciiRows(data, width, y), AsciiRow(data, width, y);
      assert HashFree(prev) by {
        AsciiRowsEnd(data, width, y);
      }
      assert HashFree(line) && line != [] && line[|line| - 1] == 10 by {
        AsciiRowEnd(data, width, y);
      }
      AppendLine(prev, line);
      assert AsciiRows(data, width, rows) == prev + line;
    }
  }

  /** The tokens of the P3 body are all samples, in order. */
  lemma {:induction false} AsciiRowsTokens(data: seq<Byte>, width: nat, rows: nat)
    requires RowStart(width * 3, rows) <= |data|
    ensures BodyScan(AsciiRows(data, width, rows), [], false) == ShowAll(data[..RowStart(width * 3, rows)])
  {
    var n := width * 3;
    if rows == 0 {
      assert data[..RowStart(n, rows)] == [];
    } else {
      var y := rows - 1;
      RowStartStep(n, y);
      var prev, line := AsciiRows(data, width, y), AsciiRow(data, width, y);
      var a, b := data[..RowStart(n, y)], data[RowStart(n, y)..RowStart(n, rows)];
      assert BodyScan(prev, [], false) == ShowAll(a) by {
        AsciiRowsTokens(data, width, y);
      }
      assert BodyScan(line, [], false) == ShowAll(b) by {
        LineTokens(data, width, y);
      }
      assert prev != [] ==> HashFree(prev) && prev[|prev| - 1] == 10 by {
        AsciiRowsEnd(data, width, y);
      }
      assert prev == [] ==> a == [] by {
        if y > 0 {
          AsciiRowsEnd(data, width, y);
        }
      }
      TokensOfLines(prev, line, a, b);
      assert AsciiRows(data, width, rows) == prev + line;
      assert data[..RowStart(n, rows)] == a + b by {
        RowsSliceStep(data, n, y);
      }
    }
  }

  /** The first `y + 1` rows are the first `y` rows and then row `y`. */
  lemma RowsSliceStep(data: seq<Byte>, n: nat, y: nat)
    requires RowStart(n, y + 1) <= |data|
    ensures RowStart(n, y) <= RowStart(n, y + 1)
    ensures data[..RowStart(n, y + 1)] == data[..RowStart(n, y)] + data[RowStart(n, y)..RowStart(n, y + 1)]
  {
    RowStartStep(n, y);
  }

  /** Tokens of two consecutive pieces of body text, the first empty or ending
      in a line feed. */
  lemma TokensOfLines(prev: seq<Byte>, line: seq<Byte>, a: seq<Byte>, b: seq<Byte>)
    requires BodyScan(prev, [], false) == ShowAll(a) && BodyScan(line, [], false) == ShowAll(b)
    requires prev == [] ==> a == []
    requires prev != [] ==> HashFree(prev) && prev[|prev| - 1] == 10
    ensures BodyScan(prev + line, [], false) == ShowAll(a + b)
  {
    ShowAllAppend(a, b);
    if prev == [] {
      assert prev + line == line;
    } else {
      BodySplit(prev, line, []);
    }
  }

  lemma LineTokens(data: seq<Byte>, width: nat, y: nat)
    requires RowStart(width * 3, y) + width * 3 <= |data|
    ensures BodyScan(AsciiRow(data, width, y), [], false) ==
      ShowAll(data[RowStart(width * 3, y)..RowStart(width * 3, y) + width * 3])
  {
    var n := width * 3;
    var row := data[RowStart(n, y)..RowStart(n, y) + n];
    RowTokens(row, []);
    assert AsciiRow(data, width, y) == Join(RowTriples(row)) + ([10] + []);
    assert BodyScan([], [], false) == [];
    assert ShowAll(row) + [] == ShowAll(row);
  }

  /** Reading back the numerals of a sample list at `max_value` 255 gives the
      samples. */
  lemma {:induction false} AsciiSamplesOfNumerals(xs: seq<Byte>)
    ensures AsciiSamples(ShowAll(xs), |xs|, 255) == Ok(xs)
    decreases |xs|
  {
    if xs != [] {
      DecimalRoundTrip(xs[0]);
      assert ShowAll(xs)[0] == ShowNat(xs[0]);
      assert ShowAll(xs)[1..] == ShowAll(xs[1..]);
      AsciiSamplesOfNumerals(xs[1..]);
      assert [xs[0]] + xs[1..] == xs;
    }
  }

  /** Writing an image with `max_value` 255 and reading the file back gives
      the same width, height, `max_value` and samples, in both formats. */
  lemma PpmRoundTrip(width: nat, height: nat, data: seq<Byte>, binary: bool)
    requires |data| == width * height * 3
    ensures DecodePpm(EncodePpm(width, height, 255, data, binary)) == Ok(Decoded(width, height, 255, data))
  {
    RowStartTotal(width, height);
    var body := if binary then data else AsciiRows(data, width, height);
    assert EncodePpm(width, height, 255, data, binary) == HeaderThen(binary, width, height, 255, body);
    assert ShowInt(255) == ShowNat(255);
    HeaderRoundTrip(binary, width, height, 255, body);
    if !binary {
      AsciiRowsTokens(data, width, height);
      assert data[..RowStart(width * 3, height)] == data;
      AsciiSamplesOfNumerals(data);
    } else {
      assert data[..|data|] == data;
    }
  }
}
