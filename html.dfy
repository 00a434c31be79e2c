// decodeHtml of src/utils/html.ts: one decoding pass replaces six named references and then
// every numeric reference `&#N;` / `&#xH;`; the pass is repeated until nothing changes, at
// most five times.

module Html {
  import opened Common
  import JsString
  import JsNumber

  // ---------------------------------------------------------------- numeric references

  predicate IsHexDigit(c: char) {
    '0' <= c <= '9' || 'A' <= c <= 'F' || 'a' <= c <= 'f'
  }

  /** The number of `[0-9A-Fa-f]` characters from index `i` on. */
  function HexRun(s: string, i: nat): (n: nat)
    requires i <= |s|
    ensures i + n <= |s|
    ensures forall k :: i <= k < i + n ==> IsHexDigit(s[k])
    ensures i + n < |s| ==> !IsHexDigit(s[i + n])
    decreases |s| - i
  {
    if i < |s| && IsHexDigit(s[i]) then 1 + HexRun(s, i + 1) else 0
  }

  /** A match of `&#(x?[0-9A-Fa-f]+);` that starts at index `i`: the captured code and the
      index just after the `;`.  When a lower-case `x` is not followed by a digit the regex
      gives up the `x`, and then `x` itself is no digit, so there is no match. */
  function MatchAt(s: string, i: nat): (m: Option<(string, nat)>)
    requires i <= |s|
    ensures m.Some? ==> i + 4 <= m.value.1 <= |s| && |m.value.0| + 3 == m.value.1 - i
    ensures m.Some? ==> s[i] == '&' && s[i + 1] == '#' && s[m.value.1 - 1] == ';'
    ensures m.Some? ==> m.value.0 == s[i + 2..m.value.1 - 1] && |m.value.0| > 0
  {
    if i + 2 <= |s| && s[i] == '&' && s[i + 1] == '#' then
      var j := if i + 2 < |s| && s[i + 2] == 'x' then i + 3 else i + 2;
      var n := HexRun(s, j);
      if n > 0 && j + n < |s| && s[j + n] == ';' then Some((s[i + 2..j + n], j + n + 1)) else None
    else None
  }

  /** The number the callback computes from the captured code; None is NaN. */
  function CodeValue(code: string): Option<int> {
    if |code| > 0 && (code[0] == 'x' || code[0] == 'X') then JsNumber.ParseInt(code[1..], 16)
    else JsNumber.ParseInt(code, 10)
  }

  const Replacement: char := '\U{FFFD}'

  /** `String.fromCodePoint(n)`, or '' when it throws a RangeError.  A lone surrogate has no
      counterpart in a string of code points and becomes U+FFFD. */
  function FromCodePoint(n: int): (r: string)
    ensures |r| <= 1
    ensures r == "" <==> !(0 <= n <= 0x10FFFF)
  {
    if 0 <= n < 0xD800 || 0xE000 <= n <= 0x10FFFF then [n as char]
    else if 0xD800 <= n < 0xE000 then [Replacement]
    else ""
  }

  /** What the callback returns for one match. */
  function NumericText(code: string): (r: string)
    ensures |r| <= 1
  {
    match CodeValue(code)
    case None => ""
    case Some(n) => FromCodePoint(n)
  }

  /** `.replace(/&#(x?[0-9A-Fa-f]+);/g, …)` on `s[i..]`: matches are found left to right and
      do not overlap. */
  function DecodeNumericFrom(s: string, i: nat): (r: string)
    requires i <= |s|
    ensures r == s[i..] || |r| < |s| - i
    ensures '&' !in s[i..] ==> r == s[i..]
    decreases |s| - i
  {
    if i == |s| then ""
    else match MatchAt(s, i)
      case Some((code, end)) =>
        assert s[i] == '&' && s[i] in s[i..];
        var rest := DecodeNumericFrom(s, end);
        assert |rest| <= |s| - end;
        NumericText(code) + rest
      case None =>
        var rest := DecodeNumericFrom(s, i + 1);
        assert s[i..] == [s[i]] + s[i + 1..];
        assert '&' !in s[i..] ==> '&' !in s[i + 1..];
        [s[i]] + rest
  }

  function DecodeNumeric(s: string): (r: string)
    ensures r == s || |r| < |s|
    ensures '&' !in s ==> r == s
  {
    assert s[0..] == s;
    DecodeNumericFrom(s, 0)
  }

  // ---------------------------------------------------------------- one pass

  /** The six named replacements, in the order the code applies them: `&amp;` first. */
  function NamedPass(s: string): (r: string)
    ensures r == s || |r| < |s|
    ensures '&' !in s ==> r == s
  {
    LaterNamed(JsString.ReplaceAll(s, "&amp;", "&"))
  }

  /** The five replacements after `&amp;`. */
  function LaterNamed(a: string): (r: string)
    ensures r == a || |r| < |a|
    ensures '&' !in a ==> r == a
  {
    var b := JsString.ReplaceAll(a, "&lt;", "<");
    var c := JsString.ReplaceAll(b, "&gt;", ">");
    var d := JsString.ReplaceAll(c, "&quot;", "\"");
    var e := JsString.ReplaceAll(d, "&#39;", "'");
    JsString.ReplaceAll(e, "&nbsp;", " ")
  }

  /** A named reference as the passes see it: `&`, then neither `&` nor `;`, then `;`. */
  predicate IsEntity(e: string) {
    |e| >= 3 && e[0] == '&' && e[|e| - 1] == ';' && '&' !in e[1..] && ';' !in e[..|e| - 1]
  }

  /** The five references LaterNamed replaces, each with its character, in the code's order. */
  const LaterEntities: seq<(string, char)> :=
    [("&lt;", '<'), ("&gt;", '>'), ("&quot;", '"'), ("&#39;", '\''), ("&nbsp;", ' ')]

  /** What one replacement makes of a piece that is either a reference or free of `&`. */
  function Stepped(piece: string, pat: string, rep: string): string {
    if piece == pat then rep else piece
  }

  /** singleDecode: a pass either leaves the string as it is or makes it strictly shorter. */
  function SingleDecode(s: string): (r: string)
    ensures r == s || |r| < |s|
    ensures '&' !in s ==> r == s
  {
    DecodeNumeric(NamedPass(s))
  }

  // ---------------------------------------------------------------- iteration

  /** At most `rounds` applications of `pass`, stopping at the first one that changes nothing. */
  function Repeated(pass: string -> string, s: string, rounds: nat): string
    decreases rounds
  {
    if rounds == 0 then s
    else
      var next := pass(s);
      if next == s then s else Repeated(pass, next, rounds - 1)
  }

  /** At most `rounds` decoding passes. */
  function Decoded(s: string, rounds: nat): string {
    Repeated(SingleDecode, s, rounds)
  }

  const MaxRounds: nat := 5

  /** The `for (let i = 0; i < 5; i++)` loop of decodeHtml, for a bound of `rounds` passes of
      `pass`: `prev` is replaced by each pass until a pass changes nothing. */
  method RepeatPass(pass: string -> string, input: string, rounds: nat) returns (r: string)
    ensures r == Repeated(pass, input, rounds)
  {
    var prev := input;
    var i := 0;
    while i < rounds
      invariant 0 <= i <= rounds
      invariant Repeated(pass, input, rounds) == Repeated(pass, prev, rounds - i)
    {
      var next := pass(prev);
      if next == prev {
        return next;
      }
      prev := next;
      i := i + 1;
    }
    return prev;
  }

  /** decodeHtml(input): undefined and '' give ''. */
  method DecodeHtml(input: Option<string>) returns (r: string)
    ensures !Truthy(input) ==> r == ""
    ensures Truthy(input) ==> r == Decoded(input.value, MaxRounds)
  {
    if !Truthy(input) {
      return "";
    }
    r := RepeatPass(SingleDecode, input.value, MaxRounds);
  }

  /** A pass that either changes nothing or shortens its input. */
  ghost predicate Shrinks(pass: string -> string) {
    forall x :: pass(x) == x || |pass(x)| < |x|
  }

  lemma {:induction false} SingleDecodeShrinks()
    ensures Shrinks(SingleDecode)
  {
    forall x ensures SingleDecode(x) == x || |SingleDecode(x)| < |x| {
    }
  }

  /** Repeating a shrinking pass ends at a fixed point, or has shortened the input by at least
      one character per round. */
  lemma {:induction false} RepeatedFixedOrShorter(pass: string -> string, s: string, rounds: nat)
    requires Shrinks(pass)
    decreases rounds
    ensures var r := Repeated(pass, s, rounds);
      |r| <= |s| && (pass(r) == r || |r| + rounds <= |s|)
  {
    if rounds > 0 && pass(s) != s {
      RepeatedFixedOrShorter(pass, pass(s), rounds - 1);
    }
  }

  /** Every pass that changes the string shortens it, so after `rounds` passes the result is
      a fixed point of singleDecode or at least `rounds` characters shorter than the input. */
  lemma {:induction false} DecodedFixedOrShorter(s: string, rounds: nat)
    ensures var r := Decoded(s, rounds);
      |r| <= |s| && (SingleDecode(r) == r || |r| + rounds <= |s|)
  {
    SingleDecodeShrinks();
    RepeatedFixedOrShorter(SingleDecode, s, rounds);
  }

  /** Hence an input of fewer than five characters always decodes to a fixed point. */
  lemma {:induction false} ShortInputIsStable(s: string)
    requires |s| < 5
    ensures SingleDecode(Decoded(s, 5)) == Decoded(s, 5)
  {
    DecodedFixedOrShorter(s, 5);
  }

  /** A string without `&` comes back unchanged. */
  lemma {:induction false} NoAmpersandUnchanged(s: string)
    requires '&' !in s
    ensures Decoded(s, 5) == s
  {
  }

  /** Without a `#` there is no numeric reference to replace. */
  lemma {:induction false} NoHashFrom(s: string, i: nat)
    requires i <= |s| && '#' !in s[i..]
    ensures DecodeNumericFrom(s, i) == s[i..]
    decreases |s| - i
  {
    if i < |s| {
      assert s[i..] == [s[i]] + s[i + 1..];
      if i + 1 < |s| {
        assert s[i + 1] in s[i..];
      }
      NoHashFrom(s, i + 1);
    }
  }

  lemma {:induction false} NoHashNoNumeric(s: string)
    requires '#' !in s
    ensures DecodeNumeric(s) == s
  {
    assert s[0..] == s;
    NoHashFrom(s, 0);
  }

  /** `&amp;` goes first, so `&amp;lt;` is `<` after a single pass. */
  lemma {:induction false} AmpLtInOnePass()
    ensures SingleDecode("&amp;lt;") == "<"
  {
    var a := JsString.ReplaceAll("&amp;lt;", "&amp;", "&");
    assert a == "&lt;";
    var b := JsString.ReplaceAll(a, "&lt;", "<");
    assert b == "<";
    assert NamedPass("&amp;lt;") == "<";
  }

  /** A pattern that does not match at the head, and whose first character does not occur later,
      replaces nothing. */
  lemma {:induction false} NoMatch(s: string, pat: string, rep: string)
    requires |pat| > 1 && |s| > 1 && pat[1] != s[1] && pat[0] !in s[1..]
    ensures JsString.ReplaceAll(s, pat, rep) == s
  {
    assert !(pat <= s);
    assert s == [s[0]] + s[1..];
  }

  /** The later five replacements leave `&amp;` alone: none of them matches. */
  lemma {:induction false} LaterNamedKeepAmp(s: string)
    requires s == "&amp;"
    ensures LaterNamed(s) == s
  {
    assert s[1..] == "amp;";
    NoMatch(s, "&lt;", "<");
    NoMatch(s, "&gt;", ">");
    NoMatch(s, "&quot;", "\"");
    NoMatch(s, "&#39;", "'");
    NoMatch(s, "&nbsp;", " ");
  }

  /** The doubly encoded `&amp;amp;` decodes to `&`: a pass to `&amp;`, a pass to `&`, and a
      pass that changes nothing. */
  lemma {:induction false} DoubleEncodedAmp(s: string)
    requires s == "&amp;amp;"
    ensures Decoded(s, MaxRounds) == "&"
  {
    var t := "&amp;";
    assert '#' !in t by {
      assert |t| == 5 && t[0] == '&' && t[1] == 'a' && t[2] == 'm' && t[3] == 'p' && t[4] == ';';
    }
    assert SingleDecode(s) == t by {
      AmpAmpPass(s);
      NoHashNoNumeric(t);
    }
    var u := "&";
    assert SingleDecode(t) == u by {
      AmpPass(t);
      assert u[0] != '#';
      NoHashNoNumeric(u);
    }
    AmpStable(u);
    TwoChanges(SingleDecode, s, t, u, MaxRounds);
  }

  /** A reference is never a prefix of text starting with another reference. */
  lemma {:induction false} EntityNotPrefix(pat: string, e: string, y: string)
    requires IsEntity(pat) && IsEntity(e) && pat != e
    ensures !(pat <= e + y)
  {
    if |pat| < |e| {
      assert e[..|e| - 1][|pat| - 1] == e[|pat| - 1] != pat[|pat| - 1];
    } else if |pat| == |e| {
      assert (e + y)[..|pat|] == e;
    } else {
      assert pat[..|pat| - 1][|e| - 1] == pat[|e| - 1] != (e + y)[|e| - 1];
    }
  }

  /** One replacement on a piece and the rest: the piece is replaced when it is the
      pattern and kept otherwise, and the scan goes on in the rest. */
  lemma {:induction false} StageOn(piece: string, z: string, pat: string, rep: string)
    requires IsEntity(pat) && (IsEntity(piece) || '&' !in piece)
    ensures JsString.ReplaceAll(piece + z, pat, rep) == Stepped(piece, pat, rep) + JsString.ReplaceAll(z, pat, rep)
  {
    if piece == pat {
      JsString.ReplaceAllAt("", z, pat, rep);
      assert "" + pat + z == piece + z;
    } else if '&' !in piece {
      JsString.ReplaceAllSkips(piece, z, pat, rep);
    } else {
      EntityNotPrefix(pat, piece, z);
      JsString.ReplaceAllPasses(piece, z, pat, rep);
    }
  }

  /** The same after text free of `&`, which the replacement copies. */
  lemma {:induction false} StageAt(x: string, piece: string, z: string, pat: string, rep: string)
    requires IsEntity(pat) && '&' !in x && (IsEntity(piece) || '&' !in piece)
    ensures JsString.ReplaceAll(x + piece + z, pat, rep) == x + Stepped(piece, pat, rep) + JsString.ReplaceAll(z, pat, rep)
  {
    AppendAssoc(x, piece, z);
    JsString.ReplaceAllSkips(x, piece + z, pat, rep);
    StageOn(piece, z, pat, rep);
    AppendAssoc(x, Stepped(piece, pat, rep), JsString.ReplaceAll(z, pat, rep));
  }

  /** Each of the five later references, after text free of `&`, becomes its character, and
      the rest of the text gets the same five replacements. */
  lemma {:induction false} LaterNamedAt(x: string, k: nat, y: string)
    requires '&' !in x && k < |LaterEntities|
    ensures LaterNamed(x + LaterEntities[k].0 + y) == x + [LaterEntities[k].1] + LaterNamed(y)
  {
    var e := LaterEntities[k].0;
    var c := LaterEntities[k].1;
    var p1 := Stepped(e, "&lt;", "<");
    var p2 := Stepped(p1, "&gt;", ">");
    var p3 := Stepped(p2, "&quot;", "\"");
    var p4 := Stepped(p3, "&#39;", "'");
    var p5 := Stepped(p4, "&nbsp;", " ");
    assert p5 == [c] && (IsEntity(p1) || '&' !in p1) && (IsEntity(p2) || '&' !in p2)
      && (IsEntity(p3) || '&' !in p3) && (IsEntity(p4) || '&' !in p4) by {
      assert IsEntity("&lt;") && IsEntity("&gt;") && IsEntity("&quot;") && IsEntity("&#39;") && IsEntity("&nbsp;");
    }
    var y1 := JsString.ReplaceAll(y, "&lt;", "<");
    var y2 := JsString.ReplaceAll(y1, "&gt;", ">");
    var y3 := JsString.ReplaceAll(y2, "&quot;", "\"");
    var y4 := JsString.ReplaceAll(y3, "&#39;", "'");
    StageAt(x, e, y, "&lt;", "<");
    StageAt(x, p1, y1, "&gt;", ">");
    StageAt(x, p2, y2, "&quot;", "\"");
    StageAt(x, p3, y3, "&#39;", "'");
    StageAt(x, p4, y4, "&nbsp;", " ");
  }

  /** Each of the five later references, after text free of `&`, becomes its character in
      one pass of the named replacements; `&amp;` first does not touch it. */
  lemma {:induction false} NamedPassAt(x: string, k: nat, y: string)
    requires '&' !in x && k < |LaterEntities|
    ensures NamedPass(x + LaterEntities[k].0 + y) == x + [LaterEntities[k].1] + NamedPass(y)
  {
    var e := LaterEntities[k].0;
    assert IsEntity(e) && e != "&amp;" && IsEntity("&amp;");
    StageAt(x, e, y, "&amp;", "&");
    LaterNamedAt(x, k, JsString.ReplaceAll(y, "&amp;", "&"));
  }

  /** Two passes that change the text, then one that does not, end the repetition. */
  lemma {:induction false} TwoChanges(pass: string -> string, a: string, b: string, c: string, rounds: nat)
    requires rounds >= 3 && pass(a) == b && b != a && pass(b) == c && c != b && pass(c) == c
    ensures Repeated(pass, a, rounds) == c
  {
    assert Repeated(pass, a, rounds) == Repeated(pass, b, rounds - 1);
    assert Repeated(pass, b, rounds - 1) == Repeated(pass, c, rounds - 2);
  }

  /** A lone `&` is left as it is. */
  lemma {:induction false} AmpStable(u: string)
    requires u == "&"
    ensures SingleDecode(u) == u
  {
    assert forall pat: string, rep: string :: |pat| > 1 ==> JsString.ReplaceAll(u, pat, rep) == u by {
      forall pat: string, rep: string | |pat| > 1 ensures JsString.ReplaceAll(u, pat, rep) == u {
        assert u[1..] == [];
      }
    }
    assert NamedPass(u) == u;
    assert u[0] != '#';
    NoHashNoNumeric(u);
  }

  lemma {:induction false} AmpAmpPass(s: string)
    requires s == "&amp;amp;"
    ensures NamedPass(s) == "&amp;"
  {
    var a := JsString.ReplaceAll(s, "&amp;", "&");
    assert a == "&amp;";
    LaterNamedKeepAmp(a);
  }

  lemma {:induction false} AmpPass(s: string)
    requires s == "&amp;"
    ensures NamedPass(s) == "&"
  {
    assert JsString.ReplaceAll(s, "&amp;", "&") == "&";
  }

  /** `&#` code `;` is a whole match when the code is a run of hex-class characters. */
  lemma {:induction false} WholeMatch(code: string, j: nat)
    requires |code| > 0 && (j == 2 || j == 3) && j - 2 < |code|
    requires forall k :: j - 2 <= k < |code| ==> IsHexDigit(code[k])
    requires j == 3 <==> code[0] == 'x'
    ensures MatchAt("&#" + code + ";", 0) == Some((code, |code| + 3))
  {
    var s := "&#" + code + ";";
    assert forall k :: 0 <= k < |code| ==> s[k + 2] == code[k];
    var n := HexRun(s, j);
    assert s[|code| + 2] == ';' && !IsHexDigit(';');
    assert forall k :: j <= k < |code| + 2 ==> IsHexDigit(s[k]);
    assert j + n == |code| + 2;
    assert s[2..|code| + 2] == code;
  }

  /** A whole match is replaced by what the callback gives for its code. */
  lemma {:induction false} WholeReference(code: string, j: nat)
    requires |code| > 0 && (j == 2 || j == 3) && j - 2 < |code|
    requires forall k :: j - 2 <= k < |code| ==> IsHexDigit(code[k])
    requires j == 3 <==> code[0] == 'x'
    ensures DecodeNumeric("&#" + code + ";") == NumericText(code)
  {
    var s := "&#" + code + ";";
    WholeMatch(code, j);
    assert DecodeNumericFrom(s, |s|) == "";
    assert DecodeNumericFrom(s, 0) == NumericText(code) + "";
  }

  /** `&#` digits `;` is the character with that decimal number (or '' beyond U+10FFFF). */
  lemma {:induction false} DecimalReference(d: string)
    requires |d| > 0 && forall k :: 0 <= k < |d| ==> '0' <= d[k] <= '9'
    ensures DecodeNumeric("&#" + d + ";") == FromCodePoint(JsNumber.ValueOf(d, 10))
  {
    WholeReference(d, 2);
    JsNumber.ParseIntOfDigits(d, 10);
    assert CodeValue(d) == Some(JsNumber.ValueOf(d, 10));
  }

  /** `&#x` hex digits `;` is the character with that hexadecimal number. */
  lemma {:induction false} HexReference(h: string)
    requires |h| > 0 && forall k :: 0 <= k < |h| ==> JsNumber.IsDigit(h[k], 16)
    ensures DecodeNumeric("&#x" + h + ";") == FromCodePoint(JsNumber.ValueOf(h, 16))
  {
    HexText(h);
    HexCode(h);
    WholeReference("x" + h, 3);
  }

  /** `&#x` h `;` is `&#` followed by the code `x` h and `;`. */
  lemma {:induction false} HexText(h: string)
    ensures "&#x" + h + ";" == "&#" + ("x" + h) + ";"
  {
    assert "&#x" == "&#" + "x";
    assert ("&#" + "x") + h == "&#" + ("x" + h);
  }

  /** The code `x` h is read as the hexadecimal number h, and is a run of hex-class characters after the `x`. */
  lemma {:induction false} HexCode(h: string)
    requires |h| > 0 && forall k :: 0 <= k < |h| ==> JsNumber.IsDigit(h[k], 16)
    ensures var code := "x" + h;
      |code| > 1 && code[0] == 'x' && (forall k :: 1 <= k < |code| ==> IsHexDigit(code[k])) &&
      CodeValue(code) == Some(JsNumber.ValueOf(h, 16))
  {
    var code := "x" + h;
    assert code[0] == 'x' && code[1..] == h;
    forall k | 1 <= k < |code|
      ensures IsHexDigit(code[k])
    {
      assert code[k] == h[k - 1];
      HexDigitClass(h[k - 1]);
    }
    JsNumber.ParseIntOfDigits(h, 16);
  }

  /** A radix-16 digit of parseInt is in the class `[0-9A-Fa-f]`. */
  lemma {:induction false} HexDigitClass(c: char)
    requires JsNumber.IsDigit(c, 16)
    ensures IsHexDigit(c)
  {
    var v := c as int;
    if '0' <= c <= '9' {
    } else if 'a' <= c <= 'z' {
      assert v - 'a' as int + 10 < 16;
    } else {
      assert 'A' <= c <= 'Z';
      assert v - 'A' as int + 10 < 16;
    }
  }

  /** A decimal code that does not start with a digit (`&#ff;`) is NaN and is dropped. */
  lemma {:induction false} NaNReferenceDropped(letters: string)
    requires |letters| > 0 && forall k :: 0 <= k < |letters| ==> 'a' <= letters[k] <= 'f'
    ensures DecodeNumeric("&#" + letters + ";") == ""
  {
    assert forall k :: 0 <= k < |letters| ==> IsHexDigit(letters[k]);
    WholeReference(letters, 2);
    NaNCode(letters);
  }

  /** A code starting with a letter other than `x` is NaN in radix 10. */
  lemma {:induction false} NaNCode(letters: string)
    requires |letters| > 0 && 'a' <= letters[0] <= 'f'
    ensures CodeValue(letters) == None
  {
    JsNumber.TrimStartKeeps(letters);
    assert JsNumber.StripHexPrefix(JsNumber.StripSign(letters), 10) == letters;
    assert !JsNumber.IsDigit(letters[0], 10);
    assert JsNumber.DigitRun(letters, 10) == 0;
  }
}
