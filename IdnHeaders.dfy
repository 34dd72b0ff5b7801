/** What ZimbraMailAdapter.handleIDN computes for the values of an address
    header: each value that mentions an ACE-encoded (punycode) domain is split
    into addresses at ',' and ';' the way `new StringTokenizer(value, ",;", true)`
    does, every address whose domain decodes to a different string is rewritten
    into its Unicode form, and the rewritten value, when anything changed, is
    reported just before the original one. */
module IdnHeaders {
  import opened Common
  import opened JavaText

  /** IDNUtil.ACE_PREFIX, the ACE prefix of section 5 of RFC 3490. */
  const AcePrefix: string := "xn--"

  /** The header names (lower-cased) whose values are addresses. */
  const AddressHeaders: set<string> := {"bcc", "cc", "from", "reply-to", "sender", "to"}

  // ------------------------------------------------------ the tokenizer

  predicate IsDelimiter(c: char) { c == ',' || c == ';' }

  /** A token of StringTokenizer with returned delimiters: a single delimiter, or a
      non-empty run of other characters. */
  predicate IsDelimiterToken(t: string) { |t| == 1 && IsDelimiter(t[0]) }

  predicate IsToken(t: string)
  {
    IsDelimiterToken(t) || (|t| >= 1 && forall i :: 0 <= i < |t| ==> !IsDelimiter(t[i]))
  }

  function Concat(ts: seq<string>): string
    decreases |ts|
  {
    if |ts| == 0 then "" else ts[0] + Concat(ts[1..])
  }

  /** The length of the run of non-delimiters at the start of `s`. */
  function RunLength(s: string): (n: nat)
    ensures n <= |s|
    ensures forall i :: 0 <= i < n ==> !IsDelimiter(s[i])
    ensures n == |s| || IsDelimiter(s[n])
    decreases |s|
  {
    if |s| == 0 || IsDelimiter(s[0]) then 0 else 1 + RunLength(s[1..])
  }

  /** The tokens `new StringTokenizer(s, ",;", true)` returns, in order. Together they
      spell `s`, and a run of non-delimiters is never split into two tokens. */
  function Tokens(s: string): (toks: seq<string>)
    ensures Concat(toks) == s
    ensures forall k :: 0 <= k < |toks| ==> IsToken(toks[k])
    ensures forall k :: 0 <= k < |toks| - 1 && !IsDelimiterToken(toks[k]) ==> IsDelimiterToken(toks[k + 1])
    ensures |toks| > 0 && !IsDelimiterToken(toks[0]) ==> |s| > 0 && !IsDelimiter(s[0])
    decreases |s|
  {
    if |s| == 0 then []
    else if IsDelimiter(s[0]) then
      var rest := Tokens(s[1..]);
      assert [s[0]] + s[1..] == s;
      [[s[0]]] + rest
    else
      var n := RunLength(s);
      var rest := Tokens(s[n..]);
      assert s[..n] + s[n..] == s;
      [s[..n]] + rest
  }

  // --------------------------------------------- rewriting the addresses

  /** What `new InternetAddress(text)` parses: an optional personal name and the address. */
  datatype InternetAddress = InternetAddress(personal: Option<string>, address: string)

  /** The foreign pieces handleIDN relies on. */
  datatype AddressCodec = AddressCodec(
    parse: string -> Option<InternetAddress>,   // new InternetAddress(text); None when it throws AddressException
    render: InternetAddress -> string,          // InternetAddress.toString()
    toUnicode: string -> string)                // IDNUtil.toUnicode

  /** A rebuilt header value, and whether any address in it was rewritten. */
  datatype Rewritten = Rewritten(text: string, altered: bool)

  /** The address of `text` decodes to something else, ignoring case. */
  predicate AddressChanges(codec: AddressCodec, text: string)
  {
    codec.parse(text).Some? &&
    !EqualsIgnoreCase(codec.toUnicode(codec.parse(text).value.address), codec.parse(text).value.address)
  }

  /** One address token: kept verbatim when it does not parse or its address decodes to
      the same string ignoring case; otherwise re-rendered with the decoded address. */
  function RewriteAddress(codec: AddressCodec, text: string): (r: Rewritten)
    ensures r.altered == AddressChanges(codec, text)
    ensures codec.parse(text).None? ==> r.text == text
    ensures !r.altered ==> r.text == text
  {
    match codec.parse(text)
    case None => Rewritten(text, false)
    case Some(ia) =>
      var unicode := codec.toUnicode(ia.address);
      if EqualsIgnoreCase(unicode, ia.address) then Rewritten(text, false)
      else Rewritten(codec.render(ia.(address := unicode)), true)
  }

  /** The tokens taken two at a time, an address and the delimiter after it (""
      when the address is the last token), as handleIDN's inner loop does. */
  function RewriteTokens(codec: AddressCodec, toks: seq<string>): Rewritten
    decreases |toks|
  {
    if |toks| == 0 then Rewritten("", false)
    else
      var delim := if |toks| >= 2 then toks[1] else "";
      var rest := if |toks| >= 2 then toks[2..] else [];
      var piece := RewriteAddress(codec, toks[0]);
      var tail := RewriteTokens(codec, rest);
      Rewritten(piece.text + delim + tail.text, piece.altered || tail.altered)
  }

  /** Some token in address position (the first of each pair) decodes to a different string. */
  predicate SomeAddressChanges(codec: AddressCodec, toks: seq<string>)
  {
    exists k :: 0 <= k < |toks| && k % 2 == 0 && AddressChanges(codec, toks[k])
  }

  /** The rewrite is marked altered exactly when some address decoded to a different string. */
  lemma {:induction false} AlteredIffSomeAddressChanges(codec: AddressCodec, toks: seq<string>)
    ensures RewriteTokens(codec, toks).altered <==> SomeAddressChanges(codec, toks)
    decreases |toks|
  {
    if |toks| > 0 {
      var rest := if |toks| >= 2 then toks[2..] else [];
      AlteredIffSomeAddressChanges(codec, rest);
      if SomeAddressChanges(codec, rest) {
        var k :| 0 <= k < |rest| && k % 2 == 0 && AddressChanges(codec, rest[k]);
        assert toks[k + 2] == rest[k];
        assert (k + 2) % 2 == 0;
      }
      if SomeAddressChanges(codec, toks) {
        var k :| 0 <= k < |toks| && k % 2 == 0 && AddressChanges(codec, toks[k]);
        if k > 0 {
          assert rest[k - 2] == toks[k];
          assert (k - 2) % 2 == 0;
        }
      }
    }
  }

  /** When nothing was altered, the rebuilt value is the tokens put back together unchanged. */
  lemma {:induction false} UnalteredRebuildsTokens(codec: AddressCodec, toks: seq<string>)
    requires !RewriteTokens(codec, toks).altered
    ensures RewriteTokens(codec, toks).text == Concat(toks)
    decreases |toks|
  {
    if |toks| >= 2 {
      UnalteredRebuildsTokens(codec, toks[2..]);
      assert toks[1..][1..] == toks[2..];
      assert Concat(toks) == toks[0] + (toks[1] + Concat(toks[2..]));
    } else if |toks| == 1 {
      assert Concat(toks) == toks[0] + "";
    }
  }

  /** A value none of whose addresses decodes to a different string is rebuilt exactly as it
      was, which is why handleIDN then reports only the original. */
  lemma UnalteredHeaderUnchanged(codec: AddressCodec, h: string)
    ensures !RewriteTokens(codec, Tokens(h)).altered ==> RewriteTokens(codec, Tokens(h)).text == h
  {
    if !RewriteTokens(codec, Tokens(h)).altered {
      UnalteredRebuildsTokens(codec, Tokens(h));
    }
  }

  // ---------------------------------------------------- header values

  /** The values handleIDN reports for one original value `h`: the rewritten value first
      when `h` mentions the ACE prefix and some address in it decoded to something else,
      then always `h` itself. */
  function IdnValue(codec: AddressCodec, h: string): seq<string>
  {
    if Contains(h, AcePrefix) then
      var r := RewriteTokens(codec, Tokens(h));
      if r.altered then [r.text, h] else [h]
    else [h]
  }

  /** handleIDN: the values of every original value, in order. */
  function IdnValues(codec: AddressCodec, headers: seq<string>): seq<string>
    decreases |headers|
  {
    if |headers| == 0 then [] else IdnValue(codec, headers[0]) + IdnValues(codec, headers[1..])
  }

  /** One original value yields itself, preceded by a decoded value exactly when it
      mentions the ACE prefix and one of its addresses decodes to a different string. */
  lemma IdnValueShape(codec: AddressCodec, h: string)
    ensures |IdnValue(codec, h)| in {1, 2}
    ensures IdnValue(codec, h)[|IdnValue(codec, h)| - 1] == h
    ensures |IdnValue(codec, h)| == 2 <==> Contains(h, AcePrefix) && SomeAddressChanges(codec, Tokens(h))
    ensures |IdnValue(codec, h)| == 2 ==> IdnValue(codec, h)[0] == RewriteTokens(codec, Tokens(h)).text
  {
    AlteredIffSomeAddressChanges(codec, Tokens(h));
  }

  /** The values of the originals come out in the originals' order: the values of the
      k-th original sit between those of the originals before and after it. */
  lemma {:induction false} IdnValuesAppend(codec: AddressCodec, xs: seq<string>, ys: seq<string>)
    ensures IdnValues(codec, xs + ys) == IdnValues(codec, xs) + IdnValues(codec, ys)
    decreases |xs|
  {
    if |xs| > 0 {
      assert (xs + ys)[1..] == xs[1..] + ys;
      IdnValuesAppend(codec, xs[1..], ys);
    } else {
      assert xs + ys == ys;
    }
  }

  lemma IdnValuesAt(codec: AddressCodec, headers: seq<string>, k: nat)
    requires k < |headers|
    ensures IdnValues(codec, headers) ==
              IdnValues(codec, headers[..k]) + IdnValue(codec, headers[k]) + IdnValues(codec, headers[k + 1..])
  {
    assert headers == headers[..k] + ([headers[k]] + headers[k + 1..]);
    IdnValuesAppend(codec, headers[..k], [headers[k]] + headers[k + 1..]);
    assert ([headers[k]] + headers[k + 1..])[1..] == headers[k + 1..];
  }

  /** getHeader: for an address header (the name compared lower-cased) the values go
      through handleIDN; every other header's values come back as they are, and a
      header the message lacks gives no values. */
  function HeaderValues(codec: AddressCodec, values: seq<string>, name: string): seq<string>
  {
    if values != [] && Lower(name) in AddressHeaders then IdnValues(codec, values) else values
  }

  /** A header outside the address headers is never rewritten. */
  lemma NonAddressHeaderUnchanged(codec: AddressCodec, values: seq<string>, name: string)
    requires Lower(name) !in AddressHeaders
    ensures HeaderValues(codec, values, name) == values
  {
  }

  /** Values without the ACE prefix are reported exactly as they are. */
  lemma {:induction false} NoAcePrefixUnchanged(codec: AddressCodec, values: seq<string>)
    requires forall k :: 0 <= k < |values| ==> !Contains(values[k], AcePrefix)
    ensures IdnValues(codec, values) == values
    decreases |values|
  {
    if |values| > 0 {
      NoAcePrefixUnchanged(codec, values[1..]);
      assert values == [values[0]] + values[1..];
    }
  }
}
