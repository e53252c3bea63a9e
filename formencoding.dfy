/** Python's `urllib.parse.urlencode` (with `quote_plus` and `safe=''`) and
    a reference parser that inverts it. The serialization has the shape of
    the application/x-www-form-urlencoded serializer of section 5.2 of the
    WHATWG URL Standard, but the two differ on the bytes they leave alone:
    Python keeps `~` and escapes `*`, the WHATWG serializer keeps `*` and
    escapes `~`. */
module FormEncoding {
  import opened Wrappers
  import opened Bytes
  import opened Text
  import Utf8

  /** Bytes `quote_plus` leaves as they are: ASCII letters, digits and `_.-~`. */
  predicate Unreserved(x: int) {
    (48 <= x <= 57) || (65 <= x <= 90) || (97 <= x <= 122) || x == 95 || x == 46 || x == 45 || x == 126
  }

  /** The characters a form-encoded string is made of. */
  predicate FormChar(c: char) {
    Unreserved(c as int) || c == '+' || c == '%'
  }

  /** A digit or an upper-case letter `A`-`F`. */
  predicate UpperHex(c: char) {
    '0' <= c <= '9' || 'A' <= c <= 'F'
  }

  /** An upper-case hexadecimal digit. */
  function HexDigit(d: nat): (c: char)
    requires d < 16
    ensures Unreserved(c as int) && c != '+' && c != '%'
    ensures UpperHex(c) && HexValue(c) == Some(d)
  {
    if d < 10 then (48 + d) as char else (55 + d) as char
  }

  /** The value of a hexadecimal digit of either case. */
  function HexValue(c: char): (r: Option<nat>)
    ensures r.Some? ==> r.value < 16
  {
    if '0' <= c <= '9' then Some(c as int - 48)
    else if 'A' <= c <= 'F' then Some(c as int - 55)
    else if 'a' <= c <= 'f' then Some(c as int - 87)
    else None
  }

  /** How `quote_plus` writes one byte: itself when unreserved, `+` for a
      space, `%XX` in upper-case hexadecimal otherwise. */
  function QuoteByte(x: Byte): (r: string)
    ensures forall i :: 0 <= i < |r| ==> FormChar(r[i])
    ensures Unreserved(x) ==> r == [x as char]
    ensures x == 0x20 ==> r == "+"
    ensures !Unreserved(x) && x != 0x20 ==>
      && |r| == 3 && r[0] == '%'
      && UpperHex(r[1]) && HexValue(r[1]) == Some(x / 16)
      && UpperHex(r[2]) && HexValue(r[2]) == Some(x % 16)
  {
    if Unreserved(x) then [x as char]
    else if x == 0x20 then "+"
    else ['%', HexDigit(x / 16), HexDigit(x % 16)]
  }

  function QuoteBytes(b: seq<Byte>): (r: string)
    ensures forall i :: 0 <= i < |r| ==> FormChar(r[i])
    ensures |b| <= |r| <= 3 * |b|
  {
    if b == [] then [] else QuoteByte(b[0]) + QuoteBytes(b[1..])
  }

  /** `urllib.parse.quote_plus(s)`: the UTF-8 bytes of `s`, each written by
      QuoteByte. */
  function QuotePlus(s: string): (r: string)
    ensures forall i :: 0 <= i < |r| ==> FormChar(r[i])
  {
    QuoteBytes(Utf8.Encode(s))
  }

  /** The characters of a serialized query: form-encoded text and the two
      separators. */
  predicate QueryChar(c: char) {
    FormChar(c) || c == '=' || c == '&'
  }

  /** One `key=value` pair of the serialization. */
  function Pair(p: (string, string)): (r: string)
    ensures r != [] && forall i :: 0 <= i < |r| ==> QueryChar(r[i])
  {
    QuotePlus(p.0) + "=" + QuotePlus(p.1)
  }

  /** The `key=value` pieces of the serialization, one per pair, in order. */
  function Pieces(pairs: seq<(string, string)>): seq<string> {
    seq(|pairs|, i requires 0 <= i < |pairs| => Pair(pairs[i]))
  }

  lemma PiecesCons(pairs: seq<(string, string)>)
    requires pairs != []
    ensures Pieces(pairs) == [Pair(pairs[0])] + Pieces(pairs[1..])
  {
  }

  /** `urllib.parse.urlencode(pairs)` for string keys and values, in the
      order given. */
  function Urlencode(pairs: seq<(string, string)>): (r: string)
    ensures r == [] <==> pairs == []
    ensures forall i :: 0 <= i < |r| ==> QueryChar(r[i])
  {
    JoinQueryChars(Pieces(pairs));
    if pairs != [] then
      JoinNonEmpty(Pieces(pairs), "&");
      Join(Pieces(pairs), "&")
    else
      []
  }

  /** Pieces made of query characters, joined by `&`, are made of query
      characters. */
  lemma {:induction false} JoinQueryChars(pieces: seq<string>)
    requires forall k :: 0 <= k < |pieces| ==> forall i :: 0 <= i < |pieces[k]| ==> QueryChar(pieces[k][i])
    ensures forall i :: 0 <= i < |Join(pieces, "&")| ==> QueryChar(Join(pieces, "&")[i])
  {
    if |pieces| > 1 {
      JoinQueryChars(pieces[1..]);
      var rest := Join(pieces[1..], "&");
      var r := Join(pieces, "&");
      assert r == pieces[0] + "&" + rest;
      forall i | 0 <= i < |r| ensures QueryChar(r[i]) {
        if i < |pieces[0]| {
          assert r[i] == pieces[0][i];
        } else if i > |pieces[0]| {
          assert r[i] == rest[i - |pieces[0]| - 1];
        }
      }
    }
  }

  /** The bytes a form-encoded string stands for: `+` is a space, `%XX` a byte
      in hexadecimal, and any other character its own UTF-8 bytes (a `%` that
      does not start an escape stands for itself). */
  function UnquoteBytes(s: string): seq<Byte> {
    if s == [] then []
    else if s[0] == '+' then [0x20] + UnquoteBytes(s[1..])
    else if s[0] == '%' && |s| >= 3 && HexValue(s[1]).Some? && HexValue(s[2]).Some? then
      [HexValue(s[1]).value * 16 + HexValue(s[2]).value] + UnquoteBytes(s[3..])
    else Utf8.EncodeChar(s[0]) + UnquoteBytes(s[1..])
  }

  /** The text a form-encoded string stands for, or `None` when its bytes are
      not UTF-8. */
  function Unquote(s: string): Option<string> {
    Utf8.Decode(UnquoteBytes(s))
  }

  function ParsePairs(pieces: seq<string>): Option<seq<(string, string)>> {
    if pieces == [] then Some([])
    else
      match Partition(pieces[0], "=")
      case None => None
      case Some((k, v)) =>
        match (Unquote(k), Unquote(v), ParsePairs(pieces[1..]))
        case (Some(key), Some(value), Some(rest)) => Some([(key, value)] + rest)
        case _ => None
  }

  /** Reads a query string back into its key/value pairs, or `None` when a
      piece has no `=` or does not decode. */
  function ParseQuery(q: string): Option<seq<(string, string)>> {
    if q == [] then Some([]) else ParsePairs(Split(q, "&"))
  }

  lemma UnquoteQuoteByte(x: Byte, rest: string)
    ensures UnquoteBytes(QuoteByte(x) + rest) == [x] + UnquoteBytes(rest)
  {
    var s := QuoteByte(x) + rest;
    if Unreserved(x) {
      assert s[1..] == rest;
    } else if x == 0x20 {
      assert s[1..] == rest;
    } else {
      assert s[3..] == rest;
    }
  }

  /** Round trip at the byte level. */
  lemma {:induction false} UnquoteQuoteBytes(b: seq<Byte>)
    ensures UnquoteBytes(QuoteBytes(b)) == b
  {
    if b != [] {
      UnquoteQuoteByte(b[0], QuoteBytes(b[1..]));
      UnquoteQuoteBytes(b[1..]);
      assert b == [b[0]] + b[1..];
    }
  }

  /** Round trip: unquoting what `quote_plus` wrote gives the original text. */
  lemma UnquoteQuotePlus(s: string)
    ensures Unquote(QuotePlus(s)) == Some(s)
  {
    UnquoteQuoteBytes(Utf8.Encode(s));
    Utf8.DecodeEncode(s);
  }

  /** A string of unreserved ASCII characters is written unchanged. */
  lemma {:induction false} QuotePlusLiteral(s: string)
    requires forall i :: 0 <= i < |s| ==> Unreserved(s[i] as int)
    ensures QuotePlus(s) == s
  {
    if s != [] {
      QuotePlusLiteral(s[1..]);
      assert Utf8.Encode(s) == [s[0] as int] + Utf8.Encode(s[1..]);
      assert Utf8.Encode(s)[1..] == Utf8.Encode(s[1..]);
    }
  }

  /** `quote_plus` distributes over concatenation. */
  lemma QuotePlusAppend(s: string, t: string)
    ensures QuotePlus(s + t) == QuotePlus(s) + QuotePlus(t)
  {
    Utf8.EncodeAppend(s, t);
    QuoteBytesAppend(Utf8.Encode(s), Utf8.Encode(t));
  }

  /** An ASCII character is written as `QuoteByte` writes its code: itself
      when unreserved, `+` for a space, `%XX` otherwise. */
  lemma QuotePlusAscii(c: char)
    requires c as int < 0x80
    ensures QuotePlus([c]) == QuoteByte(c as int)
  {
    assert Utf8.Encode([c]) == Utf8.EncodeChar(c) + Utf8.Encode([]);
    assert QuoteBytes([c as int]) == QuoteByte(c as int) + QuoteBytes([]);
  }

  /** Every space is written as `+`, and the text around it is encoded on
      its own. */
  lemma QuotePlusSpace(s: string, t: string)
    ensures QuotePlus(s + " " + t) == QuotePlus(s) + "+" + QuotePlus(t)
  {
    QuotePlusAppend(s + " ", t);
    QuotePlusAppend(s, " ");
    QuotePlusAscii(' ');
  }

  lemma {:induction false} QuoteBytesAppend(a: seq<Byte>, b: seq<Byte>)
    ensures QuoteBytes(a + b) == QuoteBytes(a) + QuoteBytes(b)
  {
    if a == [] {
      assert a + b == b;
    } else {
      assert (a + b)[1..] == a[1..] + b;
      QuoteBytesAppend(a[1..], b);
    }
  }

  /** Text without `+` and `%` stands for its own UTF-8 bytes. */
  lemma {:induction false} UnquotePlain(s: string)
    requires forall i :: 0 <= i < |s| ==> s[i] != '+' && s[i] != '%'
    ensures Unquote(s) == Some(s)
  {
    UnquoteBytesPlain(s);
    Utf8.DecodeEncode(s);
  }

  lemma {:induction false} UnquoteBytesPlain(s: string)
    requires forall i :: 0 <= i < |s| ==> s[i] != '+' && s[i] != '%'
    ensures UnquoteBytes(s) == Utf8.Encode(s)
  {
    if s != [] {
      UnquoteBytesPlain(s[1..]);
    }
  }

  /** A form-encoded string holds neither separator of the query syntax. */
  lemma NoSeparators(r: string)
    requires forall i :: 0 <= i < |r| ==> FormChar(r[i])
    ensures !Contains(r, "&") && !Contains(r, "=")
  {
    ContainsSingle(r, '&');
    ContainsSingle(r, '=');
  }

  lemma PairFields(p: (string, string))
    ensures Partition(Pair(p), "=") == Some((QuotePlus(p.0), QuotePlus(p.1)))
    ensures !Contains(Pair(p), "&")
  {
    NoSeparators(QuotePlus(p.0));
    PartitionJoin(QuotePlus(p.0), "=", QuotePlus(p.1));
    var s := Pair(p);
    forall i | 0 <= i < |s| ensures s[i] != '&' {
      if i < |QuotePlus(p.0)| {
        assert s[i] == QuotePlus(p.0)[i];
      } else if i > |QuotePlus(p.0)| {
        assert s[i] == QuotePlus(p.1)[i - |QuotePlus(p.0)| - 1];
      }
    }
    ContainsSingle(s, '&');
  }

  /** An encoded pair at the head of the pieces is read back as itself. */
  lemma ParseEncodedPair(p: (string, string), rest: seq<string>)
    requires ParsePairs(rest).Some?
    ensures ParsePairs([Pair(p)] + rest) == Some([p] + ParsePairs(rest).value)
  {
    PairFields(p);
    UnquoteQuotePlus(p.0);
    UnquoteQuotePlus(p.1);
    assert ([Pair(p)] + rest)[1..] == rest;
  }

  lemma {:induction false} ParsePairsRoundTrip(pairs: seq<(string, string)>)
    ensures ParsePairs(Pieces(pairs)) == Some(pairs)
  {
    if pairs != [] {
      ParsePairsRoundTrip(pairs[1..]);
      PiecesCons(pairs);
      ParseEncodedPair(pairs[0], Pieces(pairs[1..]));
      assert pairs == [pairs[0]] + pairs[1..];
    }
  }

  lemma JoinNonEmpty(pieces: seq<string>, sep: string)
    requires |pieces| >= 1 && pieces[0] != []
    ensures Join(pieces, sep) != []
  {
  }

  /** Round trip: the reference parser reads back exactly the pairs, in order,
      that `urlencode` serialized. */
  lemma UrlencodeRoundTrip(pairs: seq<(string, string)>)
    ensures ParseQuery(Urlencode(pairs)) == Some(pairs)
  {
    var pieces := Pieces(pairs);
    ParsePairsRoundTrip(pairs);
    if pairs != [] {
      forall k | 0 <= k < |pieces| ensures !Contains(pieces[k], "&") {
        PairFields(pairs[k]);
      }
      SingleBorderFree('&');
      SplitJoin(pieces, "&");
      assert pieces[0][|QuotePlus(pairs[0].0)|] == '=';
      JoinNonEmpty(pieces, "&");
    }
  }

  /** The serialization of three pairs, written out. */
  lemma UrlencodeThree(p0: (string, string), p1: (string, string), p2: (string, string))
    ensures Urlencode([p0, p1, p2])
      == QuotePlus(p0.0) + "=" + QuotePlus(p0.1) + "&" + QuotePlus(p1.0) + "=" + QuotePlus(p1.1)
         + "&" + QuotePlus(p2.0) + "=" + QuotePlus(p2.1)
  {
    assert Pieces([p0, p1, p2]) == [Pair(p0), Pair(p1), Pair(p2)];
    JoinThree(Pair(p0), Pair(p1), Pair(p2), "&");
    FlattenThree(QuotePlus(p0.0), QuotePlus(p0.1), QuotePlus(p1.0), QuotePlus(p1.1), QuotePlus(p2.0), QuotePlus(p2.1));
  }

  lemma FlattenThree(k0: string, v0: string, k1: string, v1: string, k2: string, v2: string)
    ensures (k0 + "=" + v0) + "&" + (k1 + "=" + v1) + "&" + (k2 + "=" + v2)
      == k0 + "=" + v0 + "&" + k1 + "=" + v1 + "&" + k2 + "=" + v2
  {
    var a := k0 + "=" + v0 + "&";
    assert a + (k1 + "=" + v1) == a + k1 + "=" + v1;
    var b := a + k1 + "=" + v1 + "&";
    assert b + (k2 + "=" + v2) == b + k2 + "=" + v2;
  }

  /** Text a query can carry without escaping: no `&`, `+` or `%`. */
  predicate Plain(s: string) {
    forall i :: 0 <= i < |s| ==> s[i] != '&' && s[i] != '+' && s[i] != '%'
  }

  /** A plain key without `=` and a plain value read back as themselves. */
  lemma ParsePlainPair(k: string, v: string, rest: seq<string>)
    requires Plain(k) && Plain(v) && forall i :: 0 <= i < |k| ==> k[i] != '='
    requires ParsePairs(rest).Some?
    ensures ParsePairs([k + "=" + v] + rest) == Some([(k, v)] + ParsePairs(rest).value)
  {
    ContainsSingle(k, '=');
    SingleBorderFree('=');
    PartitionJoin(k, "=", v);
    UnquotePlain(k);
    UnquotePlain(v);
    assert ([k + "=" + v] + rest)[1..] == rest;
  }

  lemma PlainPairNoAmpersand(k: string, v: string)
    requires Plain(k) && Plain(v)
    ensures !Contains(k + "=" + v, "&")
  {
    var p := k + "=" + v;
    forall i | 0 <= i < |p| ensures p[i] != '&' {
      if i < |k| {
        assert p[i] == k[i];
      } else if i > |k| {
        assert p[i] == v[i - |k| - 1];
      }
    }
    ContainsSingle(p, '&');
  }

  lemma ParsePlainThree(k0: string, v0: string, k1: string, v1: string, k2: string, v2: string)
    requires Plain(k0) && Plain(v0) && Plain(k1) && Plain(v1) && Plain(k2) && Plain(v2)
    requires forall i :: 0 <= i < |k0| ==> k0[i] != '='
    requires forall i :: 0 <= i < |k1| ==> k1[i] != '='
    requires forall i :: 0 <= i < |k2| ==> k2[i] != '='
    ensures ParsePairs([k0 + "=" + v0, k1 + "=" + v1, k2 + "=" + v2]) == Some([(k0, v0), (k1, v1), (k2, v2)])
  {
    var a, b, c := k0 + "=" + v0, k1 + "=" + v1, k2 + "=" + v2;
    assert ParsePairs([]) == Some([]);
    ParsePlainPair(k2, v2, []);
    assert [c] + [] == [c] && [(k2, v2)] + [] == [(k2, v2)];
    ParsePlainPair(k1, v1, [c]);
    assert [b] + [c] == [b, c];
    ParsePlainPair(k0, v0, [b, c]);
    assert [a] + [b, c] == [a, b, c];
    assert [(k0, v0)] + ([(k1, v1)] + [(k2, v2)]) == [(k0, v0), (k1, v1), (k2, v2)];
  }

  /** Three pairs written without escapes read back as themselves, in order. */
  lemma ParseThreePlain(k0: string, v0: string, k1: string, v1: string, k2: string, v2: string)
    requires Plain(k0) && Plain(v0) && Plain(k1) && Plain(v1) && Plain(k2) && Plain(v2)
    requires forall i :: 0 <= i < |k0| ==> k0[i] != '='
    requires forall i :: 0 <= i < |k1| ==> k1[i] != '='
    requires forall i :: 0 <= i < |k2| ==> k2[i] != '='
    ensures ParseQuery(k0 + "=" + v0 + "&" + k1 + "=" + v1 + "&" + k2 + "=" + v2)
      == Some([(k0, v0), (k1, v1), (k2, v2)])
  {
    var a, b, c := k0 + "=" + v0, k1 + "=" + v1, k2 + "=" + v2;
    var q := k0 + "=" + v0 + "&" + k1 + "=" + v1 + "&" + k2 + "=" + v2;
    PlainPairNoAmpersand(k0, v0);
    PlainPairNoAmpersand(k1, v1);
    PlainPairNoAmpersand(k2, v2);
    JoinThree(a, b, c, "&");
    assert a + "&" + b + "&" + c == q;
    SingleBorderFree('&');
    SplitJoin([a, b, c], "&");
    assert Split(q, "&") == [a, b, c];
    assert q != [] by {
      assert |q| > 0;
    }
    ParsePlainThree(k0, v0, k1, v1, k2, v2);
  }
}
