/** The first-post markup parser (modules/bulk/text_format.py).

    A single pass turns flat markup into plain text plus entities whose offsets and lengths
    count UTF-16 code units.  The parser is specified by a tokenizer on the remaining input;
    the results below say that tokenizing loses nothing, that the entities alone let one put
    the markup back, and that printing followed by parsing is the identity.

    Characters are Unicode scalar values, which is what Dafny's `char` is. */
module TextFormat {
  import opened Wrappers

  // ---------------------------------------------------------------- UTF-16 (RFC 2781, section 2.1)

  newtype Byte = b: int | 0 <= b < 256

  function UnitBytes(u: int): seq<Byte>
    requires 0 <= u < 0x10000
  {
    [(u % 256) as Byte, (u / 256) as Byte]
  }

  /** The little-endian UTF-16 bytes of one scalar value; above U+FFFF a surrogate pair. */
  function EncodeChar(c: char): seq<Byte> {
    var v := c as int;
    if v < 0x10000 then UnitBytes(v)
    else
      UnitBytes(0xD800 + (v - 0x10000) / 0x400) + UnitBytes(0xDC00 + (v - 0x10000) % 0x400)
  }

  function Encode(text: string): seq<Byte> {
    if text == [] then [] else EncodeChar(text[0]) + Encode(text[1..])
  }

  /** Length in UTF-16 code units: half the number of encoded bytes. */
  function U16(text: string): nat {
    |Encode(text)| / 2
  }

  lemma Assoc<T>(a: seq<T>, b: seq<T>, c: seq<T>)
    ensures (a + b) + c == a + (b + c)
  {
  }

  lemma Halves<T>(a: seq<T>, b: seq<T>)
    ensures (a + b)[..|a|] == a && (a + b)[|a|..] == b
  {
  }

  lemma EncodeNil()
    ensures Encode("") == [] && U16("") == 0
  {
  }

  lemma EncodeCons(c: char, rest: string)
    ensures Encode([c] + rest) == EncodeChar(c) + Encode(rest)
  {
    hide EncodeChar;
    Halves([c], rest);
  }

  lemma {:induction false} EncodeConcat(a: string, b: string)
    ensures Encode(a + b) == Encode(a) + Encode(b)
  {
    hide Encode, EncodeChar;
    if a == "" {
      assert Encode("") == [] by { EncodeNil(); }
      Halves(a, b);
      Halves(Encode(a), Encode(b));
    } else {
      var c, more := a[0], a[1..];
      assert a == [c] + more;
      EncodeConcat(more, b);
      Assoc([c], more, b);
      EncodeCons(c, more);
      EncodeCons(c, more + b);
      Assoc(EncodeChar(c), Encode(more), Encode(b));
    }
  }

  /** The value of a code unit that is stored low byte first. */
  function UnitOf(lo: Byte, hi: Byte): int {
    lo as int + 0x100 * hi as int
  }

  /** A decoder of little-endian UTF-16: a unit outside the surrogate ranges is a character, a high surrogate
      and a low one together are one, and anything else is malformed. */
  function Decode(bytes: seq<Byte>): Option<string> {
    if bytes == [] then Some("")
    else if |bytes| < 2 then None
    else
      var u := UnitOf(bytes[0], bytes[1]);
      if 0xDC00 <= u < 0xE000 then None
      else if !(0xD800 <= u < 0xDC00) then Prepend(u as char, Decode(bytes[2..]))
      else if |bytes| < 4 then None
      else
        var low := UnitOf(bytes[2], bytes[3]);
        if !(0xDC00 <= low < 0xE000) then None
        else Prepend((0x10000 + 0x400 * (u - 0xD800) + (low - 0xDC00)) as char, Decode(bytes[4..]))
  }

  function Prepend(c: char, rest: Option<string>): Option<string> {
    if rest.None? then None else Some([c] + rest.value)
  }

  lemma UnitReadsBack(u: int, rest: seq<Byte>)
    requires 0 <= u < 0x10000
    ensures var bytes := UnitBytes(u) + rest;
            |UnitBytes(u)| == 2 && UnitOf(bytes[0], bytes[1]) == u && bytes[2..] == rest
  {
  }

  lemma DecodeChar(c: char, rest: seq<Byte>)
    ensures Decode(EncodeChar(c) + rest) == Prepend(c, Decode(rest))
    ensures |EncodeChar(c)| == if c as int >= 0x10000 then 4 else 2
  {
    hide UnitBytes, UnitOf;
    var v := c as int;
    if v < 0x10000 {
      UnitReadsBack(v, rest);
    } else {
      var high, low := 0xD800 + (v - 0x10000) / 0x400, 0xDC00 + (v - 0x10000) % 0x400;
      Assoc(UnitBytes(high), UnitBytes(low), rest);
      UnitReadsBack(low, rest);
      UnitReadsBack(high, UnitBytes(low) + rest);
      var bytes := UnitBytes(high) + (UnitBytes(low) + rest);
      assert bytes[2..][2..] == bytes[4..];
    }
  }

  /** The bytes are UTF-16: decoding them gives the text back. */
  lemma {:induction false} DecodeEncode(text: string)
    ensures Decode(Encode(text)) == Some(text)
  {
    hide EncodeChar;
    if text != "" {
      DecodeEncode(text[1..]);
      DecodeChar(text[0], Encode(text[1..]));
      assert text == [text[0]] + text[1..];
    } else {
      EncodeNil();
    }
  }

  /** The characters from U+10000 up. */
  function Astral(text: string): nat {
    if text == "" then 0 else (if text[0] as int >= 0x10000 then 1 else 0) + Astral(text[1..])
  }

  /** The length in code units counts every character once, and those from U+10000 up twice. */
  lemma {:induction false} UnitsCounted(text: string)
    ensures |Encode(text)| == 2 * U16(text)
    ensures U16(text) == |text| + Astral(text)
  {
    hide EncodeChar, Decode;
    if text != "" {
      UnitsCounted(text[1..]);
      DecodeChar(text[0], Encode(text[1..]));
    } else {
      EncodeNil();
    }
  }

  lemma U16Concat(a: string, b: string)
    ensures U16(a + b) == U16(a) + U16(b)
  {
    EncodeConcat(a, b);
    UnitsCounted(a);
    UnitsCounted(b);
  }

  /** Cutting between two characters cuts the encoded text at twice the unit offset. */
  lemma EncodeCut(text: string, k: nat)
    requires k <= |text|
    ensures |Encode(text)| >= 2 * U16(text[..k])
    ensures Encode(text)[..2 * U16(text[..k])] == Encode(text[..k])
    ensures Encode(text)[2 * U16(text[..k])..] == Encode(text[k..])
  {
    hide Encode;
    assert text == text[..k] + text[k..];
    EncodeConcat(text[..k], text[k..]);
    UnitsCounted(text[..k]);
    Halves(Encode(text[..k]), Encode(text[k..]));
  }

  // ---------------------------------------------------------------- markers and tokens

  datatype Kind = Spoiler | Bold | Strike | Italic | Code {
    function Marker(): string {
      match this
      case Spoiler => "||"
      case Bold => "**"
      case Strike => "~~"
      case Italic => "__"
      case Code => "`"
    }
  }

  /** The table of paired markers, in the order they are tried. */
  const PAIRS: seq<Kind> := [Spoiler, Bold, Strike, Italic, Code]

  datatype Token =
    | Literal(c: char)
    | Span(kind: Kind, inner: string)
    | Link(lbl: string, url: string)
  {
    /** The source text of this token, followed by `rest`. */
    function Before(rest: string): string {
      match this
      case Literal(c) => [c] + rest
      case Span(k, inner) => Wrap(k.Marker(), inner, rest)
      case Link(lbl, url) => "[" + (lbl + ("](" + (url + (")" + rest))))
    }

    /** Number of source characters the token takes. */
    function Size(): nat {
      match this
      case Literal(_) => 1
      case Span(k, inner) => |inner| + 2 * |k.Marker()|
      case Link(lbl, url) => |lbl| + |url| + 4
    }

    /** The text a token leaves in the message. */
    function Shown(): string {
      match this
      case Literal(c) => [c]
      case Span(_, inner) => inner
      case Link(lbl, _) => lbl
    }

    function EntitiesAt(pos: nat): seq<Entity> {
      match this
      case Literal(_) => []
      case Span(k, inner) => [Styled(k, pos, U16(inner))]
      case Link(lbl, url) => [TextUrl(pos, U16(lbl), url)]
    }
  }

  /** `inner` between two copies of `m`, followed by `rest`. */
  function Wrap(m: string, inner: string, rest: string): string {
    m + (inner + (m + rest))
  }

  datatype Entity =
    | Styled(kind: Kind, offset: nat, length: nat)
    | TextUrl(offset: nat, length: nat, url: string)
  {
    /** The markup of this entity around the shown text `inner`, followed by `rest`. */
    function Around(inner: string, rest: string): string {
      match this
      case Styled(k, _, _) => Span(k, inner).Before(rest)
      case TextUrl(_, _, url) => Link(inner, url).Before(rest)
    }
  }

  function Print(ts: seq<Token>): string {
    if ts == [] then "" else ts[0].Before(Print(ts[1..]))
  }

  function Plain(ts: seq<Token>): string {
    if ts == [] then "" else ts[0].Shown() + Plain(ts[1..])
  }

  function Entities(ts: seq<Token>, pos: nat): seq<Entity> {
    if ts == [] then []
    else ts[0].EntitiesAt(pos) + Entities(ts[1..], pos + U16(ts[0].Shown()))
  }

  // ---------------------------------------------------------------- searching

  /** First position at which `pat` occurs in `s`, or -1. */
  function FindIn(s: string, pat: string): (r: int)
    ensures -1 <= r && r + |pat| <= |s| + (if r < 0 then |pat| + 1 else 0)
  {
    if pat <= s then 0
    else if s == [] then -1
    else
      var r := FindIn(s[1..], pat);
      if r < 0 then -1 else r + 1
  }

  /** `r` is the first place where `pat` occurs in `s`; a negative `r` says there is none. */
  ghost predicate FirstAt(s: string, pat: string, r: int) {
    && (r >= 0 ==> r <= |s| && pat <= s[r..])
    && (forall p :: 0 <= p <= |s| && (r < 0 || p < r) ==> !(pat <= s[p..]))
  }

  lemma {:induction false} FindInFirst(s: string, pat: string)
    ensures FirstAt(s, pat, FindIn(s, pat))
  {
    assert s[0..] == s;
    if !(pat <= s) && s != [] {
      FindInFirst(s[1..], pat);
      forall p | 1 <= p <= |s|
        ensures s[p..] == s[1..][p - 1..]
      {
      }
    }
  }

  /** Python's `src.find(pat, start)`. */
  function Find(src: string, pat: string, start: nat): int
    requires start <= |src|
  {
    var r := FindIn(src[start..], pat);
    if r < 0 then -1 else start + r
  }

  /** It answers the first occurrence at or behind `start`, or -1 when there is none. */
  lemma FindExact(src: string, pat: string, start: nat)
    requires start <= |src|
    ensures var r := Find(src, pat, start);
            if r == -1 then forall p :: start <= p <= |src| ==> !(pat <= src[p..])
            else && start <= r <= |src| && pat <= src[r..]
                 && forall p :: start <= p < r ==> !(pat <= src[p..])
  {
    hide FindIn;
    var rest := src[start..];
    FindInFirst(rest, pat);
    forall p | start <= p <= |src|
      ensures src[p..] == rest[p - start..]
    {
    }
  }

  lemma FindInUnique(s: string, pat: string, r: nat)
    requires FirstAt(s, pat, r)
    ensures FindIn(s, pat) == r
  {
    FindInFirst(s, pat);
  }

  lemma FindInPrefix(a: string, rest: string, pat: string)
    requires FindIn(a, pat) >= 0
    ensures FindIn(a + rest, pat) == FindIn(a, pat)
  {
    hide FindIn;
    var r := FindIn(a, pat);
    FindInFirst(a, pat);
    assert (a + rest)[r..] == a[r..] + rest;
    forall p | 0 <= p < r
      ensures !(pat <= (a + rest)[p..])
    {
      assert (a + rest)[p..] == a[p..] + rest;
      assert !(pat <= a[p..]);
    }
    FindInUnique(a + rest, pat, r);
  }

  // ---------------------------------------------------------------- links

  /** The characters Python's `\s` matches in a `str` pattern. */
  predicate IsSpace(c: char) {
    var v := c as int;
    || 0x09 <= v <= 0x0D || 0x1C <= v <= 0x20 || v == 0x85 || v == 0xA0 || v == 0x1680
    || 0x2000 <= v <= 0x200A || v == 0x2028 || v == 0x2029 || v == 0x202F || v == 0x205F || v == 0x3000
  }

  /** They are the 29 characters that Python's `str.isspace` accepts. */
  lemma SpacesListed(c: char)
    ensures IsSpace(c) <==>
              c as int in {0x09, 0x0A, 0x0B, 0x0C, 0x0D, 0x1C, 0x1D, 0x1E, 0x1F, 0x20, 0x85, 0xA0, 0x1680,
                           0x2000, 0x2001, 0x2002, 0x2003, 0x2004, 0x2005, 0x2006, 0x2007, 0x2008, 0x2009, 0x200A,
                           0x2028, 0x2029, 0x202F, 0x205F, 0x3000}
  {
  }

  predicate LabelChar(c: char) { c != ']' }

  predicate UrlChar(c: char) { c != ')' && !IsSpace(c) }

  predicate LinkOk(lbl: string, url: string) {
    && lbl != "" && (forall k :: 0 <= k < |lbl| ==> LabelChar(lbl[k]))
    && url != "" && (forall k :: 0 <= k < |url| ==> UrlChar(url[k]))
  }

  /** Length of the longest prefix all of whose characters satisfy `p`. */
  function RunLength(s: string, p: char -> bool): (n: nat)
    ensures n <= |s| && (forall k :: 0 <= k < n ==> p(s[k])) && (n < |s| ==> !p(s[n]))
  {
    if s == [] || !p(s[0]) then 0 else 1 + RunLength(s[1..], p)
  }

  /** The link pattern as a deterministic matcher at the start of `s`. */
  function MatchLink(s: string): Option<Token> {
    if !("[" <= s) then None
    else
      var lbl := TakeRun(s[1..], LabelChar, "](");
      if lbl.None? then None
      else
        var url := TakeRun(s[1..][|lbl.value|..][2..], UrlChar, ")");
        if url.None? then None else Some(Link(lbl.value, url.value))
  }

  /** The longest run of `p` characters, if it is not empty and `stop` follows it. */
  function TakeRun(s: string, p: char -> bool, stop: string): (r: Option<string>)
    ensures r.Some? ==> |r.value| <= |s| && r.value <= s && stop <= s[|r.value|..]
  {
    var n := RunLength(s, p);
    if n == 0 || !(stop <= s[n..]) then None else Some(s[..n])
  }

  lemma RunLengthOf(s: string, p: char -> bool, n: nat)
    requires n < |s| && !p(s[n]) && forall k :: 0 <= k < n ==> p(s[k])
    ensures RunLength(s, p) == n
  {
  }

  lemma TakeRunComplete(run: string, p: char -> bool, stop: string, rest: string)
    requires run != "" && stop != "" && !p(stop[0]) && forall k :: 0 <= k < |run| ==> p(run[k])
    ensures TakeRun(run + (stop + rest), p, stop) == Some(run)
  {
    var tail := stop + rest;
    Halves(run, tail);
    assert (run + tail)[|run|] == tail[0];
    RunLengthOf(run + tail, p, |run|);
  }

  lemma TakeRunSound(s: string, p: char -> bool, stop: string)
    requires TakeRun(s, p, stop).Some?
    ensures var run := TakeRun(s, p, stop).value;
            && run != "" && (forall k :: 0 <= k < |run| ==> p(run[k]))
            && s == run + (stop + s[|run|..][|stop|..])
  {
    var n := RunLength(s, p);
    assert s[n..] == stop + s[n..][|stop|..];
  }

  lemma MatchLinkComplete(lbl: string, url: string, rest: string)
    requires LinkOk(lbl, url)
    ensures MatchLink(Link(lbl, url).Before(rest)) == Some(Link(lbl, url))
  {
    hide TakeRun;
    var tail := url + (")" + rest);
    var afterOpen := lbl + ("](" + tail);
    Halves("[", afterOpen);
    TakeRunComplete(lbl, LabelChar, "](", tail);
    Halves(lbl, "](" + tail);
    Halves("](", tail);
    TakeRunComplete(url, UrlChar, ")", rest);
  }

  lemma MatchLinkSound(s: string)
    requires MatchLink(s).Some?
    ensures var t := MatchLink(s).value;
            t.Link? && LinkOk(t.lbl, t.url) && t.Size() <= |s| && s == t.Before(s[t.Size()..])
  {
    hide TakeRun;
    var t := MatchLink(s).value;
    TakeRunSound(s[1..], LabelChar, "](");
    var tail := s[1..][|t.lbl|..][2..];
    TakeRunSound(tail, UrlChar, ")");
    var rest := tail[|t.url|..][1..];
    assert s == "[" + s[1..];
    assert s == t.Before(rest);
    BeforeSize(t, rest);
  }

  /** The greedy, backtracking-free matcher decides the regular expression: it succeeds exactly
      when some admissible label and url start the input, and it returns that (only) pair. */
  lemma MatchLinkDecidesPattern(s: string, lbl: string, url: string)
    ensures MatchLink(s) == Some(Link(lbl, url))
      <==> LinkOk(lbl, url) && exists rest :: s == Link(lbl, url).Before(rest)
  {
    hide MatchLink;
    if LinkOk(lbl, url) && exists rest :: s == Link(lbl, url).Before(rest) {
      var rest :| s == Link(lbl, url).Before(rest);
      MatchLinkComplete(lbl, url, rest);
    }
    if MatchLink(s) == Some(Link(lbl, url)) {
      MatchLinkSound(s);
    }
  }

  // ---------------------------------------------------------------- the tokenizer

  /** One marker tried at the start of `s`: the non-empty text up to the nearest closing one. */
  function TryPair(s: string, m: string): Option<string> {
    if m <= s then UpTo(s[|m|..], m) else None
  }

  /** The text in front of the first occurrence of `m`, if there is any. */
  function UpTo(body: string, m: string): Option<string> {
    if FindIn(body, m) > 0 then Some(body[..FindIn(body, m)]) else None
  }

  function FirstPair(s: string, table: seq<Kind>): Option<Token> {
    if table == [] then None
    else
      var inner := TryPair(s, table[0].Marker());
      if inner.Some? then Some(Span(table[0], inner.value)) else FirstPair(s, table[1..])
  }

  function NextToken(s: string): Token
    requires s != ""
  {
    if MatchLink(s).Some? then MatchLink(s).value
    else if FirstPair(s, PAIRS).Some? then FirstPair(s, PAIRS).value
    else Literal(s[0])
  }

  /** The span's own marker does not turn up before the end of its content. */
  predicate SpanOk(m: string, inner: string) {
    inner != "" && FindIn(inner + m, m) == |inner|
  }

  lemma UpToSound(body: string, m: string)
    requires UpTo(body, m).Some?
    ensures var inner := UpTo(body, m).value;
            SpanOk(m, inner) && exists rest :: body == inner + (m + rest)
  {
    hide FindIn;
    var r := FindIn(body, m);
    FindInFirst(body, m);
    var inner, rest := body[..r], body[r..][|m|..];
    assert body[r..] == m + rest;
    assert body == inner + (m + rest);
    Assoc(inner, m, rest);
    var closed := inner + m;
    forall p | 0 <= p < r
      ensures !(m <= closed[p..])
    {
      assert body[p..] == closed[p..] + rest;
    }
    Halves(inner, m);
    FindInUnique(closed, m, r);
  }

  lemma TryPairSound(s: string, m: string)
    requires TryPair(s, m).Some?
    ensures var inner := TryPair(s, m).value;
            && SpanOk(m, inner)
            && |inner| + 2 * |m| <= |s| && s == Wrap(m, inner, s[|inner| + 2 * |m|..])
  {
    hide FindIn, UpTo, SpanOk;
    var body := s[|m|..];
    UpToSound(body, m);
    var inner := UpTo(body, m).value;
    var rest :| body == inner + (m + rest);
    assert s == m + body;
    DropWrap(m, inner, rest);
  }

  lemma TryPairComplete(m: string, inner: string, rest: string)
    requires SpanOk(m, inner)
    ensures TryPair(Wrap(m, inner, rest), m) == Some(inner)
  {
    hide FindIn;
    var body := inner + (m + rest);
    Halves(m, body);
    Assoc(inner, m, rest);
    FindInPrefix(inner + m, rest, m);
    Halves(inner, m + rest);
  }

  /** The token `t` is what `s` begins with. */
  predicate Begins(t: Token, s: string) {
    t.Size() <= |s| && s == t.Before(s[t.Size()..])
  }

  lemma {:induction false} FirstPairRow(s: string, table: seq<Kind>)
    requires FirstPair(s, table).Some?
    ensures var t := FirstPair(s, table).value;
            t.Span? && TryPair(s, t.kind.Marker()) == Some(t.inner)
  {
    if TryPair(s, table[0].Marker()).None? {
      FirstPairRow(s, table[1..]);
    }
  }

  lemma FirstPairSound(s: string, table: seq<Kind>)
    requires FirstPair(s, table).Some?
    ensures var t := FirstPair(s, table).value;
            t.Span? && SpanOk(t.kind.Marker(), t.inner) && Begins(t, s)
  {
    hide FirstPair, TryPair, SpanOk;
    FirstPairRow(s, table);
    TryPairSound(s, FirstPair(s, table).value.kind.Marker());
  }

  /** Every token is a genuine piece of the input ... */
  lemma NextTokenSound(s: string)
    requires s != ""
    ensures Begins(NextToken(s), s)
  {
    hide MatchLink, FirstPair, SpanOk, LinkOk;
    if MatchLink(s).Some? {
      MatchLinkSound(s);
    } else if FirstPair(s, PAIRS).Some? {
      FirstPairSound(s, PAIRS);
    }
  }

  /** ... and takes and shows at least one character. */
  lemma NextTokenSize(s: string)
    requires s != ""
    ensures 0 < NextToken(s).Size() <= |s| && NextToken(s).Shown() != ""
  {
    hide MatchLink, FirstPair, Token.Before;
    NextTokenSound(s);
    if MatchLink(s).Some? {
      MatchLinkSound(s);
    } else if FirstPair(s, PAIRS).Some? {
      FirstPairSound(s, PAIRS);
    }
  }

  function Tokens(s: string): seq<Token>
    decreases |s|
  {
    if s == "" then []
    else
      NextTokenSize(s);
      [NextToken(s)] + Tokens(s[NextToken(s).Size()..])
  }

  /** Specification of `markdown_to_entities`. */
  function Parse(src: string): (string, seq<Entity>) {
    (Plain(Tokens(src)), Entities(Tokens(src), 0))
  }

  // ---------------------------------------------------------------- the parser itself

  function Join(parts: seq<string>): string {
    if parts == [] then "" else Join(parts[..|parts| - 1]) + parts[|parts| - 1]
  }

  lemma JoinSnoc(parts: seq<string>, part: string)
    ensures Join(parts + [part]) == Join(parts) + part
  {
    assert (parts + [part])[..|parts|] == parts;
  }

  lemma TokensStep(src: string, i: nat)
    requires i < |src|
    ensures var t := NextToken(src[i..]);
            && 0 < t.Size() <= |src| - i
            && Tokens(src[i..]) == [t] + Tokens(src[i + t.Size()..])
  {
    hide NextToken;
    var s := src[i..];
    NextTokenSize(s);
    assert s[NextToken(s).Size()..] == src[i + NextToken(s).Size()..];
  }

  /** The invariant of the scan: what has been emitted, plus what the tokens still to come
      yield, is what all tokens yield, and `pos` measures the emitted text. */
  ghost predicate Scanned(all: seq<Token>, rest: seq<Token>, done: string, ents: seq<Entity>, pos: nat) {
    && pos == U16(done)
    && done + Plain(rest) == Plain(all)
    && ents + Entities(rest, pos) == Entities(all, 0)
  }

  /** Consuming the next token keeps the invariant. */
  lemma Consume(all: seq<Token>, t: Token, rest: seq<Token>, done: string, ents: seq<Entity>, pos: nat)
    requires Scanned(all, [t] + rest, done, ents, pos)
    ensures Scanned(all, rest, done + t.Shown(), ents + t.EntitiesAt(pos), pos + U16(t.Shown()))
  {
    hide Plain, Entities, U16;
    var shown, es, next := t.Shown(), t.EntitiesAt(pos), pos + U16(t.Shown());
    TokenFirst(t, rest, pos);
    U16Concat(done, shown);
    Assoc(done, shown, Plain(rest));
    Assoc(ents, es, Entities(rest, next));
  }

  lemma Advance(all: seq<Token>, src: string, i: nat, done: string, ents: seq<Entity>, pos: nat)
    requires i < |src|
    requires Scanned(all, Tokens(src[i..]), done, ents, pos)
    ensures var t := NextToken(src[i..]);
            && i < i + t.Size() <= |src|
            && Scanned(all, Tokens(src[i + t.Size()..]), done + t.Shown(),
                       ents + t.EntitiesAt(pos), pos + U16(t.Shown()))
  {
    hide Tokens, NextToken, Scanned;
    TokensStep(src, i);
    var t := NextToken(src[i..]);
    Consume(all, t, Tokens(src[i + t.Size()..]), done, ents, pos);
  }

  lemma TokenFirst(t: Token, rest: seq<Token>, pos: nat)
    ensures Plain([t] + rest) == t.Shown() + Plain(rest)
    ensures Entities([t] + rest, pos) == t.EntitiesAt(pos) + Entities(rest, pos + U16(t.Shown()))
  {
    Halves([t], rest);
  }

  lemma ScanStart(src: string)
    ensures Scanned(Tokens(src), Tokens(src[0..]), Join([]), [], 0)
  {
    hide Tokens;
    assert src[0..] == src;
    Halves("", Plain(Tokens(src)));
    Halves([], Entities(Tokens(src), 0));
  }

  lemma ScanEnd(src: string, done: string, ents: seq<Entity>, pos: nat)
    requires Scanned(Tokens(src), Tokens(src[|src|..]), done, ents, pos)
    ensures (done, ents) == Parse(src)
  {
    hide U16, Tokens, Plain, Entities;
    assert src[|src|..] == "";
    Nothing(pos);
    assert done + [] == done;
    assert ents + [] == ents;
  }

  lemma Nothing(pos: nat)
    ensures Tokens("") == [] && Plain([]) == "" && Entities([], pos) == []
  {
  }

  lemma LinkNext(s: string)
    requires s != ""
    ensures s[0] != '[' ==> MatchLink(s).None?
    ensures MatchLink(s).Some? ==> MatchLink(s).value.Link? && NextToken(s) == MatchLink(s).value
  {
  }

  lemma LiteralNext(s: string)
    requires s != "" && MatchLink(s).None? && FirstPair(s, PAIRS[|PAIRS|..]) == FirstPair(s, PAIRS)
    ensures NextToken(s) == Literal(s[0])
  {
  }

  /** What looking for the closing marker with `find` decides about one row of the table. */
  lemma RowTried(src: string, i: nat, row: nat, close: int)
    requires i < |src| && row < |PAIRS| && PAIRS[row].Marker() <= src[i..]
    requires close == Find(src, PAIRS[row].Marker(), i + |PAIRS[row].Marker()|)
    requires FirstPair(src[i..], PAIRS[row..]) == FirstPair(src[i..], PAIRS)
    ensures var s, start := src[i..], i + |PAIRS[row].Marker()|;
            if close > start then
              close <= |src| && (MatchLink(s).None? ==> NextToken(s) == Span(PAIRS[row], src[start..close]))
            else FirstPair(s, PAIRS[row + 1..]) == FirstPair(s, PAIRS)
  {
    hide MatchLink, FindIn, Tokens;
    var s, m := src[i..], PAIRS[row].Marker();
    assert PAIRS[row..][0] == PAIRS[row] && PAIRS[row..][1..] == PAIRS[row + 1..];
    assert s[|m|..] == src[i + |m|..];
    if close > i + |m| {
      assert src[i + |m|..][..close - (i + |m|)] == src[i + |m|..close];
    }
  }

  lemma RowAbsent(s: string, row: nat)
    requires row < |PAIRS| && !(PAIRS[row].Marker() <= s)
    ensures FirstPair(s, PAIRS[row..]) == FirstPair(s, PAIRS[row + 1..])
  {
    assert PAIRS[row..][0] == PAIRS[row] && PAIRS[row..][1..] == PAIRS[row + 1..];
  }

  method MarkdownToEntities(src: string) returns (text: string, entities: seq<Entity>)
    ensures (text, entities) == Parse(src)
  {
    hide Tokens, NextToken, Plain, Entities, U16, MatchLink, FirstPair, Join, FindIn, Scanned;
    var out: seq<string> := [];
    entities := [];
    var pos: nat := 0;
    var i: nat := 0;
    ghost var all := Tokens(src);
    ScanStart(src);
    while i < |src|
      invariant i <= |src|
      invariant Scanned(all, Tokens(src[i..]), Join(out), entities, pos)
      decreases |src| - i
    {
      var ch := src[i];
      LinkNext(src[i..]);
      if ch == '[' {
        var m := MatchLink(src[i..]);
        if m.Some? {
          Advance(all, src, i, Join(out), entities, pos);
          JoinSnoc(out, m.value.lbl);
          var ln := U16(m.value.lbl);
          entities := entities + [TextUrl(pos, ln, m.value.url)];
          out := out + [m.value.lbl];
          pos := pos + ln;
          i := i + m.value.Size();
          continue;
        }
      }
      ghost var at := i;
      var matched := false;
      var row := 0;
      assert PAIRS[0..] == PAIRS;
      while row < |PAIRS| && !matched
        invariant row <= |PAIRS|
        invariant at <= i <= |src|
        invariant Scanned(all, Tokens(src[i..]), Join(out), entities, pos)
        invariant if matched then i > at
                  else i == at && FirstPair(src[at..], PAIRS[row..]) == FirstPair(src[at..], PAIRS)
        decreases |PAIRS| - row
      {
        var kind := PAIRS[row];
        var marker := kind.Marker();
        if marker <= src[i..] {
          var start := i + |marker|;
          var close := Find(src, marker, start);
          RowTried(src, i, row, close);
          if close > start {
            var inner := src[start..close];
            Advance(all, src, i, Join(out), entities, pos);
            JoinSnoc(out, inner);
            var ln := U16(inner);
            entities := entities + [Styled(kind, pos, ln)];
            out := out + [inner];
            pos := pos + ln;
            i := close + |marker|;
            matched := true;
          }
        } else {
          RowAbsent(src[i..], row);
        }
        row := row + 1;
      }
      if matched {
        continue;
      }
      LiteralNext(src[i..]);
      Advance(all, src, i, Join(out), entities, pos);
      assert entities + [] == entities;
      JoinSnoc(out, [ch]);
      out := out + [[ch]];
      pos := pos + U16([ch]);
      i := i + 1;
    }
    text := Join(out);
    assert src[i..] == src[|src|..];
    ScanEnd(src, text, entities, pos);
  }

  // ---------------------------------------------------------------- nothing is lost

  lemma {:induction false} PrintTokens(s: string)
    ensures Print(Tokens(s)) == s
    decreases |s|
  {
    hide NextToken;
    if s != "" {
      NextTokenSound(s);
      NextTokenSize(s);
      var t := NextToken(s);
      PrintTokens(s[t.Size()..]);
      Halves([t], Tokens(s[t.Size()..]));
    }
  }

  /** How many characters make up the first `units` code units. */
  function CharsFor(text: string, units: int): (n: nat)
    ensures n <= |text|
  {
    if units <= 0 || text == "" then 0 else 1 + CharsFor(text[1..], units - U16([text[0]]))
  }

  lemma CharsForStep(c: char, rest: string, units: nat)
    ensures CharsFor([c] + rest, U16([c]) + units) == 1 + CharsFor(rest, units)
  {
    UnitsCounted([c]);
    Halves([c], rest);
  }

  lemma {:induction false} CharsForSkip(lead: string, text: string, gap: nat)
    ensures CharsFor(lead + text, U16(lead) + gap) == |lead| + CharsFor(text, gap)
  {
    hide CharsFor, U16;
    if lead == "" {
      EncodeNil();
      Halves(lead, text);
    } else {
      var c, more := lead[0], lead[1..];
      assert lead == [c] + more;
      U16Concat([c], more);
      Assoc([c], more, text);
      CharsForSkip(more, text, gap);
      CharsForStep(c, more + text, U16(more) + gap);
    }
  }

  lemma CharsForPrefix(a: string, b: string)
    ensures CharsFor(a + b, U16(a)) == |a|
  {
    CharsForSkip(a, b, 0);
  }

  /** Put markup back, from the plain text and the entities only.  `text` starts `pos` units
      into the message; each entity is located by counting UTF-16 units. */
  function Reinsert(text: string, entities: seq<Entity>, pos: nat): string
    decreases |entities|, 1
  {
    if entities == [] then text
    else
      var a := CharsFor(text, entities[0].offset - pos);
      text[..a] + ReinsertFrom(text[a..], entities)
  }

  /** The same, from the start of the first entity on. */
  function ReinsertFrom(text: string, entities: seq<Entity>): string
    requires entities != []
    decreases |entities|, 0
  {
    var e := entities[0];
    EntityFrom(e, text, Reinsert(text[CharsFor(text, e.length)..], entities[1..], e.offset + e.length))
  }

  /** The markup of `e` around the first `e.length` units of `text`, followed by `tail`. */
  function EntityFrom(e: Entity, text: string, tail: string): string {
    e.Around(text[..CharsFor(text, e.length)], tail)
  }

  /** `x` is the text in front of the first entity. */
  lemma ReinsertCut(x: string, y: string, entities: seq<Entity>, pos: nat)
    requires entities != [] && CharsFor(x + y, entities[0].offset - pos) == |x|
    ensures Reinsert(x + y, entities, pos) == x + ReinsertFrom(y, entities)
  {
    hide CharsFor, ReinsertFrom;
    Halves(x, y);
  }

  lemma ReinsertAtStart(text: string, entities: seq<Entity>)
    requires entities != []
    ensures Reinsert(text, entities, entities[0].offset) == ReinsertFrom(text, entities)
  {
    Halves("", text);
  }

  /** Reinserting is insensitive to text that precedes the first entity. */
  lemma ReinsertSkip(lead: string, text: string, entities: seq<Entity>, pos: nat)
    requires entities != [] ==> entities[0].offset >= pos + U16(lead)
    ensures Reinsert(lead + text, entities, pos) == lead + Reinsert(text, entities, pos + U16(lead))
  {
    hide CharsFor, U16;
    if entities != [] {
      var gap := entities[0].offset - (pos + U16(lead));
      var n := CharsFor(text, gap);
      var x, y := text[..n], text[n..];
      assert text == x + y;
      CharsForSkip(lead, x + y, gap);
      SkipCut(lead, x, y, entities, pos);
    }
  }

  lemma SkipCut(lead: string, x: string, y: string, entities: seq<Entity>, pos: nat)
    requires entities != []
    requires CharsFor(x + y, entities[0].offset - (pos + U16(lead))) == |x|
    requires CharsFor(lead + (x + y), entities[0].offset - pos) == |lead| + |x|
    ensures Reinsert(lead + (x + y), entities, pos) == lead + Reinsert(x + y, entities, pos + U16(lead))
  {
    hide Reinsert, ReinsertFrom, CharsFor, U16;
    ReinsertCut(x, y, entities, pos + U16(lead));
    Assoc(lead, x, y);
    ReinsertCut(lead + x, y, entities, pos);
    Assoc(lead, x, ReinsertFrom(y, entities));
  }

  lemma {:induction false} EntitiesStart(ts: seq<Token>, pos: nat)
    ensures Entities(ts, pos) != [] ==> Entities(ts, pos)[0].offset >= pos
  {
    if ts != [] && ts[0].Literal? {
      EntitiesStart(ts[1..], pos + U16(ts[0].Shown()));
    }
  }

  lemma {:induction false} ReinsertPrints(ts: seq<Token>, pos: nat)
    ensures Reinsert(Plain(ts), Entities(ts, pos), pos) == Print(ts)
  {
    hide Reinsert, Plain, Entities, U16;
    if ts == [] {
      Nothing(pos);
      ReinsertNothing(pos);
    } else {
      var t, rest := ts[0], ts[1..];
      ReinsertPrints(rest, pos + U16(t.Shown()));
      assert ts == [t] + rest;
      ReinsertToken(t, rest, pos);
    }
  }

  lemma ReinsertNothing(pos: nat)
    ensures Reinsert("", [], pos) == ""
  {
  }

  lemma ReinsertToken(t: Token, rest: seq<Token>, pos: nat)
    ensures var next := pos + U16(t.Shown());
            Reinsert(Plain([t] + rest), Entities([t] + rest, pos), pos)
            == t.Before(Reinsert(Plain(rest), Entities(rest, next), next))
  {
    hide Reinsert, Plain, Entities, U16;
    var next := pos + U16(t.Shown());
    TokenFirst(t, rest, pos);
    if t.Literal? {
      EntitiesStart(rest, next);
      Halves([], Entities(rest, next));
      ReinsertSkip(t.Shown(), Plain(rest), Entities(rest, next), pos);
    } else {
      ReinsertEntity(t.Shown(), Plain(rest), t.EntitiesAt(pos)[0], Entities(rest, next));
      AroundIsBefore(t, pos, Reinsert(Plain(rest), Entities(rest, next), next));
    }
  }

  lemma AroundIsBefore(t: Token, pos: nat, tail: string)
    requires !t.Literal?
    ensures t.EntitiesAt(pos) == [t.EntitiesAt(pos)[0]]
    ensures t.EntitiesAt(pos)[0].Around(t.Shown(), tail) == t.Before(tail)
    ensures t.EntitiesAt(pos)[0].offset == pos && t.EntitiesAt(pos)[0].length == U16(t.Shown())
  {
  }

  lemma ReinsertEntity(shown: string, rest: string, e: Entity, later: seq<Entity>)
    requires e.length == U16(shown)
    ensures Reinsert(shown + rest, [e] + later, e.offset)
         == e.Around(shown, Reinsert(rest, later, e.offset + e.length))
  {
    hide Reinsert, ReinsertFrom, U16;
    ReinsertAtStart(shown + rest, [e] + later);
    ReinsertFromCons(shown, rest, e, later);
  }

  lemma ReinsertFromCons(shown: string, rest: string, e: Entity, later: seq<Entity>)
    requires e.length == U16(shown)
    ensures ReinsertFrom(shown + rest, [e] + later)
         == e.Around(shown, Reinsert(rest, later, e.offset + e.length))
  {
    hide ReinsertFrom, EntityFrom, Reinsert, CharsFor, U16;
    ReinsertFromDef(shown + rest, e, later);
    CharsForPrefix(shown, rest);
    Halves(shown, rest);
    EntityFromPrefix(e, shown, rest, Reinsert(rest, later, e.offset + e.length));
  }

  lemma ReinsertFromDef(text: string, e: Entity, later: seq<Entity>)
    ensures ReinsertFrom(text, [e] + later)
         == EntityFrom(e, text, Reinsert(text[CharsFor(text, e.length)..], later, e.offset + e.length))
  {
    Halves([e], later);
  }

  lemma EntityFromPrefix(e: Entity, shown: string, rest: string, tail: string)
    requires e.length == U16(shown)
    ensures EntityFrom(e, shown + rest, tail) == e.Around(shown, tail)
  {
    hide CharsFor, U16;
    CharsForPrefix(shown, rest);
    Halves(shown, rest);
  }

  /** The parser is lossless: from what it returns, the source string can be rebuilt exactly. */
  lemma Lossless(src: string)
    ensures var (text, entities) := Parse(src); Reinsert(text, entities, 0) == src
  {
    ReinsertPrints(Tokens(src), 0);
    PrintTokens(src);
  }

  /** So two different sources never produce the same message. */
  lemma ParseInjective(src1: string, src2: string)
    requires Parse(src1) == Parse(src2)
    ensures src1 == src2
  {
    Lossless(src1);
    Lossless(src2);
  }

  // ---------------------------------------------------------------- where the entities lie

  /** `units` is the UTF-16 offset of a place between two characters of `text`. */
  ghost predicate Boundary(text: string, units: nat) {
    exists k: nat :: k <= |text| && U16(text[..k]) == units
  }

  /** Non-empty, in bounds, in order, disjoint, and never inside a surrogate pair. */
  ghost predicate WellPlaced(text: string, es: seq<Entity>) {
    && (forall k :: 0 <= k < |es| ==> es[k].length > 0 && es[k].offset + es[k].length <= U16(text))
    && (forall k :: 0 <= k < |es| ==> Boundary(text, es[k].offset) && Boundary(text, es[k].offset + es[k].length))
    && (forall j, k :: 0 <= j < k < |es| ==> es[j].offset + es[j].length <= es[k].offset)
  }

  ghost predicate NonEmptyTokens(ts: seq<Token>) {
    forall k :: 0 <= k < |ts| ==> ts[k].Shown() != ""
  }

  ghost predicate PlacedFrom(text: string, es: seq<Entity>, pos: nat) {
    WellPlaced(text, es) && forall k :: 0 <= k < |es| ==> es[k].offset >= pos
  }

  lemma PlacedCons(text: string, e: Entity, es: seq<Entity>)
    requires PlacedFrom(text, es, e.offset + e.length)
    requires e.length > 0 && e.offset + e.length <= U16(text)
    requires Boundary(text, e.offset) && Boundary(text, e.offset + e.length)
    ensures PlacedFrom(text, [e] + es, e.offset)
  {
    hide U16, Boundary;
    var all := [e] + es;
    forall k | 0 <= k < |all|
      ensures all[k].length > 0 && all[k].offset + all[k].length <= U16(text) && all[k].offset >= e.offset
      ensures Boundary(text, all[k].offset) && Boundary(text, all[k].offset + all[k].length)
    {
      assert all[k] == if k == 0 then e else es[k - 1];
    }
    forall j, k | 0 <= j < k < |all|
      ensures all[j].offset + all[j].length <= all[k].offset
    {
      assert all[k] == es[k - 1] && (j > 0 ==> all[j] == es[j - 1]);
    }
  }

  lemma BoundaryAfter(a: string, b: string)
    ensures Boundary(a + b, U16(a)) && U16(a) <= U16(a + b)
  {
    Halves(a, b);
    U16Concat(a, b);
  }

  lemma {:induction false} EntitiesPlaced(lead: string, ts: seq<Token>)
    requires NonEmptyTokens(ts)
    ensures PlacedFrom(lead + Plain(ts), Entities(ts, U16(lead)), U16(lead))
    decreases |ts|
  {
    hide Plain, Entities, U16;
    if ts == [] {
      Nothing(U16(lead));
      Halves(lead, "");
    } else {
      var t, rest := ts[0], ts[1..];
      var shown := t.Shown();
      TokenFirst(t, rest, U16(lead));
      assert ts == [t] + rest;
      Assoc(lead, shown, Plain(rest));
      U16Concat(lead, shown);
      UnitsCounted(shown);
      EntitiesPlaced(lead + shown, rest);
      BoundaryAfter(lead, shown + Plain(rest));
      BoundaryAfter(lead + shown, Plain(rest));
      var later := Entities(rest, U16(lead + shown));
      if t.Literal? {
        Halves([], later);
      } else {
        AroundIsBefore(t, U16(lead), "");
        PlacedCons(lead + Plain(ts), t.EntitiesAt(U16(lead))[0], later);
      }
    }
  }

  lemma {:induction false} TokensNonEmpty(s: string)
    ensures NonEmptyTokens(Tokens(s))
    decreases |s|
  {
    hide NextToken;
    if s != "" {
      NextTokenSize(s);
      TokensNonEmpty(s[NextToken(s).Size()..]);
    }
  }

  /** For every source the entities are well placed in the text they come with. */
  lemma EntitiesWellPlaced(src: string)
    ensures var (text, entities) := Parse(src); WellPlaced(text, entities)
  {
    hide Tokens, Plain, Entities, U16, WellPlaced;
    TokensNonEmpty(src);
    EncodeNil();
    Halves("", Plain(Tokens(src)));
    EntitiesPlaced("", Tokens(src));
  }

  // ---------------------------------------------------------------- printing, then parsing

  predicate IsTrigger(c: char) {
    c in "|*~_`["
  }

  predicate Printable(t: Token) {
    match t
    case Literal(c) => !IsTrigger(c)
    case Span(k, inner) => SpanOk(k.Marker(), inner)
    case Link(lbl, url) => LinkOk(lbl, url)
  }

  predicate Document(ts: seq<Token>) {
    forall k :: 0 <= k < |ts| ==> Printable(ts[k])
  }

  /** Content without the marker's character is always fine. */
  lemma SpanOkWithoutMarker(m: string, inner: string)
    requires inner != "" && m != "" && m[0] !in inner
    ensures SpanOk(m, inner)
  {
    hide FindIn;
    forall p | 0 <= p < |inner|
      ensures !(m <= (inner + m)[p..])
    {
      assert (inner + m)[p..][0] == inner[p];
    }
    Halves(inner, m);
    FindInUnique(inner + m, m, |inner|);
  }

  lemma {:induction false} NoPairFor(s: string, table: seq<Kind>)
    requires s != "" && forall k :: 0 <= k < |table| ==> table[k].Marker()[0] != s[0]
    ensures FirstPair(s, table).None?
  {
    if table != [] {
      assert !(table[0].Marker() <= s);
      NoPairFor(s, table[1..]);
    }
  }

  lemma {:induction false} PairFor(s: string, table: seq<Kind>, j: nat)
    requires s != "" && j < |table| && TryPair(s, table[j].Marker()).Some?
    requires forall k :: 0 <= k < j ==> table[k].Marker()[0] != s[0]
    ensures FirstPair(s, table) == Some(Span(table[j], TryPair(s, table[j].Marker()).value))
  {
    if j > 0 {
      assert !(table[0].Marker() <= s);
      PairFor(s, table[1..], j - 1);
    }
  }

  lemma MarkersDistinct(k: Kind) returns (j: nat)
    ensures j < |PAIRS| && PAIRS[j] == k
    ensures forall i :: 0 <= i < j ==> PAIRS[i].Marker()[0] != k.Marker()[0]
  {
    match k
    case Spoiler => j := 0;
    case Bold => j := 1;
    case Strike => j := 2;
    case Italic => j := 3;
    case Code => j := 4;
  }

  lemma NextTokenOfPrinted(t: Token, rest: string)
    requires Printable(t)
    ensures NextToken(t.Before(rest)) == t
  {
    hide FirstPair, MatchLink;
    var s := t.Before(rest);
    LinkNext(s);
    match t
    case Literal(c) =>
      assert s[0] == c;
      NoPairFor(s, PAIRS);
    case Link(lbl, url) =>
      MatchLinkComplete(lbl, url, rest);
    case Span(k, inner) =>
      TryPairComplete(k.Marker(), inner, rest);
      assert s[0] == k.Marker()[0];
      var j := MarkersDistinct(k);
      PairFor(s, PAIRS, j);
  }

  lemma BeforeSize(t: Token, rest: string)
    ensures |t.Before(rest)| == t.Size() + |rest| && t.Before(rest)[t.Size()..] == rest
  {
    match t
    case Literal(_) =>
    case Span(k, inner) => DropWrap(k.Marker(), inner, rest);
    case Link(lbl, url) =>
      var tail := url + (")" + rest);
      DropTwice("[", lbl, "](" + tail);
      Halves(url, ")" + rest);
      assert t.Before(rest)[t.Size()..] == tail[|url|..][1..];
  }

  lemma DropTwice<T>(a: seq<T>, b: seq<T>, c: seq<T>)
    ensures (a + (b + c))[|a| + |b|..] == c
  {
  }

  lemma DropWrap(m: string, inner: string, rest: string)
    ensures Wrap(m, inner, rest)[|inner| + 2 * |m|..] == rest
  {
    DropTwice(m, inner, m + rest);
  }

  lemma TokensCons(t: Token, rest: string)
    requires Printable(t)
    ensures Tokens(t.Before(rest)) == [t] + Tokens(rest)
  {
    hide NextToken, Printable, Token.Before;
    NextTokenOfPrinted(t, rest);
    BeforeSize(t, rest);
    assert t.Before(rest) != "" by { SizePositive(t); }
  }

  lemma SizePositive(t: Token)
    ensures t.Size() > 0
  {
  }

  lemma {:induction false} TokensOfPrinted(ts: seq<Token>)
    requires Document(ts)
    ensures Tokens(Print(ts)) == ts
  {
    hide Tokens, Printable, Token.Before;
    if ts == [] {
      Nothing(0);
    } else {
      TokensOfPrinted(ts[1..]);
      TokensCons(ts[0], Print(ts[1..]));
      assert ts == [ts[0]] + ts[1..];
    }
  }

  /** Printing a document and parsing the result gives back its text and its entities. */
  lemma PrintThenParse(ts: seq<Token>)
    requires Document(ts)
    ensures Parse(Print(ts)) == (Plain(ts), Entities(ts, 0))
  {
    TokensOfPrinted(ts);
  }

  /** For spans and links the side conditions are exact, not just sufficient. */
  lemma SingleTokenExact(t: Token)
    requires !t.Literal? && t.Before("") != ""
    ensures Tokens(t.Before("")) == [t] <==> Printable(t)
  {
    hide MatchLink, FirstPair;
    var s := t.Before("");
    if Printable(t) {
      assert Print([t]) == s;
      TokensOfPrinted([t]);
    }
    if Tokens(s) == [t] {
      assert Tokens(s)[0] == NextToken(s);
      if MatchLink(s).Some? {
        MatchLinkSound(s);
      } else if FirstPair(s, PAIRS).Some? {
        FirstPairSound(s, PAIRS);
      }
    }
  }

  /** Text without marker characters is copied, and moves what follows by its length in code units. */
  lemma {:induction false} UnmarkedText(lead: string, rest: string, pos: nat)
    requires forall c :: c in lead ==> !IsTrigger(c)
    ensures Plain(Tokens(lead + rest)) == lead + Plain(Tokens(rest))
    ensures Entities(Tokens(lead + rest), pos) == Entities(Tokens(rest), pos + U16(lead))
  {
    hide Tokens, Plain, Entities, U16, IsTrigger;
    if lead == "" {
      EncodeNil();
      assert U16("") == 0;
      assert "" + rest == rest && lead + Plain(Tokens(rest)) == Plain(Tokens(rest));
    } else {
      var t, more := Literal(lead[0]), lead[1..];
      assert lead == [lead[0]] + more;
      assert lead + rest == [lead[0]] + (more + rest);
      TokensCons(t, more + rest);
      TokenFirst(t, Tokens(more + rest), pos);
      U16Concat([lead[0]], more);
      UnmarkedText(more, rest, pos + U16([lead[0]]));
      assert [] + Entities(Tokens(more + rest), pos + U16([lead[0]])) ==
          Entities(Tokens(more + rest), pos + U16([lead[0]]));
      Assoc([lead[0]], more, Plain(Tokens(rest)));
    }
  }

  lemma LastSpan(k: Kind, inner: string, pos: nat)
    requires inner != "" && k.Marker()[0] !in inner
    ensures var rest := k.Marker() + (inner + k.Marker());
            Plain(Tokens(rest)) == inner && Entities(Tokens(rest), pos) == [Styled(k, pos, U16(inner))]
  {
    hide Tokens, Plain, Entities, U16, SpanOk;
    var t := Span(k, inner);
    SpanOkWithoutMarker(k.Marker(), inner);
    assert k.Marker() + "" == k.Marker() && inner + "" == inner;
    TokensCons(t, "");
    Nothing(pos + U16(inner));
    TokenFirst(t, [], pos);
  }

  lemma ParseBehind(lead: string, body: string)
    requires forall c :: c in lead ==> !IsTrigger(c)
    ensures Parse(lead + body) == (lead + Plain(Tokens(body)), Entities(Tokens(body), U16(lead)))
  {
    hide Tokens, Plain, Entities, U16, IsTrigger;
    UnmarkedText(lead, body, 0);
  }

  /** A marked span behind unmarked text gives one entity.  Its offset and length count each character once,
      and those from U+10000 up, such as emoji, twice. */
  lemma SpanBehindText(lead: string, k: Kind, inner: string)
    requires forall c :: c in lead ==> !IsTrigger(c)
    requires inner != "" && k.Marker()[0] !in inner
    ensures Parse(lead + (k.Marker() + (inner + k.Marker()))) ==
            (lead + inner, [Styled(k, |lead| + Astral(lead), |inner| + Astral(inner))])
  {
    hide *;
    var body := k.Marker() + (inner + k.Marker());
    LastSpan(k, inner, U16(lead));
    ParseBehind(lead, body);
    UnitsCounted(lead);
    UnitsCounted(inner);
  }

  /** The markers in the spelling that the editor's toolbar writes. */
  lemma MarkersAsDocumented(lead: string, inner: string)
    requires forall c :: c in lead ==> !IsTrigger(c)
    requires inner != "" && forall c :: c in inner ==> !IsTrigger(c)
    ensures var at, length := |lead| + Astral(lead), |inner| + Astral(inner);
            && Parse(lead + ("**" + (inner + "**"))) == (lead + inner, [Styled(Bold, at, length)])
            && Parse(lead + ("__" + (inner + "__"))) == (lead + inner, [Styled(Italic, at, length)])
            && Parse(lead + ("~~" + (inner + "~~"))) == (lead + inner, [Styled(Strike, at, length)])
            && Parse(lead + ("||" + (inner + "||"))) == (lead + inner, [Styled(Spoiler, at, length)])
            && Parse(lead + ("`" + (inner + "`"))) == (lead + inner, [Styled(Code, at, length)])
  {
    hide Parse, Astral;
    SpanBehindText(lead, Bold, inner);
    SpanBehindText(lead, Italic, inner);
    SpanBehindText(lead, Strike, inner);
    SpanBehindText(lead, Spoiler, inner);
    SpanBehindText(lead, Code, inner);
  }
}
