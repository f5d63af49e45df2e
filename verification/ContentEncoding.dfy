/** Content codings (src/http_compression.cpp): header parsing, the decoder table and the
    decoding loop. Decoders are given; the zlib ones are not part of this model. */
module ContentEncoding {
  import opened Basics

  function LowerChar(c: char): char {
    if 'A' <= c <= 'Z' then ((c as int) + 32) as char else c
  }

  function Lower(s: string): (r: string)
    ensures |r| == |s|
  {
    seq(|s|, i requires 0 <= i < |s| => LowerChar(s[i]))
  }

  function TrimLeft(s: string): string {
    if s != "" && IsSpace(s[0]) then TrimLeft(s[1..]) else s
  }

  function TrimRight(s: string): string {
    if s != "" && IsSpace(s[|s| - 1]) then TrimRight(s[..|s| - 1]) else s
  }

  function Trim(s: string): string {
    TrimRight(TrimLeft(s))
  }

  function Normalize(s: string): string {
    Lower(Trim(s))
  }

  // ----- Header lists -----

  /** The elements between commas. */
  function Elements(s: string): (r: seq<string>)
    ensures r != []
  {
    if s == "" then [""]
    else
      var rest := Elements(s[1..]);
      if s[0] == ',' then [""] + rest else [[s[0]] + rest[0]] + rest[1..]
  }

  function Codings(elements: seq<string>): seq<string> {
    if elements == [] then []
    else
      var token := Normalize(elements[0]);
      (if token == "" then [] else [token]) + Codings(elements[1..])
  }

  lemma CodingsCons(e: string, rest: seq<string>)
    ensures Codings([e] + rest) == (if Normalize(e) == "" then [] else [Normalize(e)]) + Codings(rest)
  {
    assert ([e] + rest)[1..] == rest;
  }

  lemma CodingsOne(e: string)
    ensures Codings([e]) == if Normalize(e) == "" then [] else [Normalize(e)]
  {
    CodingsCons(e, []);
    assert [e] + [] == [e];
  }

  function ParseCodings(header: string): seq<string> {
    Codings(Elements(header))
  }

  lemma {:induction false} ElementsAtComma(a: string, rest: string)
    requires ',' !in a
    ensures Elements(a + "," + rest) == [a] + Elements(rest)
  {
    var s := a + "," + rest;
    if a == "" {
      assert s == "," + rest && s[1..] == rest;
    } else {
      assert s[1..] == a[1..] + "," + rest;
      assert a[0] in a;
      ElementsAtComma(a[1..], rest);
      assert [a[0]] + a[1..] == a;
    }
  }

  lemma {:induction false} ElementsWithoutComma(a: string)
    requires ',' !in a
    ensures Elements(a) == [a]
  {
    if a != "" {
      assert a[0] in a;
      ElementsWithoutComma(a[1..]);
      assert [a[0]] + a[1..] == a;
    }
  }

  method FindComma(s: string, start: nat) returns (i: nat)
    requires start <= |s|
    ensures start <= i <= |s| && ',' !in s[start..i] && (i < |s| ==> s[i] == ',')
  {
    i := start;
    while i < |s| && s[i] != ','
      invariant start <= i <= |s| && ',' !in s[start..i]
    {
      i := i + 1;
    }
  }

  function Token(element: string): seq<string> {
    if Normalize(element) == "" then [] else [Normalize(element)]
  }

  lemma FirstElement(header: string, start: nat, comma: nat)
    requires start <= comma <= |header| && ',' !in header[start..comma] && (comma < |header| ==> header[comma] == ',')
    ensures ParseCodings(header[start..]) ==
            Token(header[start..comma]) + if comma < |header| then ParseCodings(header[comma + 1..]) else []
  {
    var element := header[start..comma];
    if comma < |header| {
      assert header[start..] == element + "," + header[comma + 1..];
      ElementsAtComma(element, header[comma + 1..]);
      CodingsCons(element, Elements(header[comma + 1..]));
    } else {
      assert header[start..] == element;
      ElementsWithoutComma(element);
      CodingsOne(element);
    }
  }

  /** One turn of the loop, with `done` already collected. */
  lemma CollectToken(done: seq<string>, all: seq<string>, header: string, start: nat, comma: nat)
    requires start <= comma <= |header| && ',' !in header[start..comma] && (comma < |header| ==> header[comma] == ',')
    requires done + ParseCodings(header[start..]) == all
    ensures comma < |header| ==> (done + Token(header[start..comma])) + ParseCodings(header[comma + 1..]) == all
    ensures comma == |header| ==> done + Token(header[start..comma]) == all
  {
    FirstElement(header, start, comma);
    var token := Token(header[start..comma]);
    if comma < |header| {
      var rest := ParseCodings(header[comma + 1..]);
      assert done + (token + rest) == (done + token) + rest;
    } else {
      assert token + [] == token;
    }
  }

  method ParseContentEncodings(header: string) returns (encodings: seq<string>)
    ensures encodings == ParseCodings(header)
  {
    encodings := [];
    var start := 0;
    ghost var all := ParseCodings(header);
    assert header[0..] == header && [] + all == all;
    while start <= |header|
      invariant 0 <= start <= |header|
      invariant encodings + ParseCodings(header[start..]) == all
      decreases |header| - start
    {
      var comma := FindComma(header, start);
      CollectToken(encodings, all, header, start, comma);
      var token := Normalize(header[start..comma]);
      if token != "" {
        encodings := encodings + [token];
      } else {
        assert encodings + [] == encodings;
      }
      if comma == |header| {
        break;
      }
      start := comma + 1;
    }
  }

  // ----- Any spelling of a list of codings -----

  /** One list element as a sender may write it; an empty name is an empty element. */
  datatype Spelling = Spelling(lead: string, name: string, trail: string)

  predicate ValidSpelling(x: Spelling) {
    && AllSpace(x.lead) && AllSpace(x.trail) && ',' !in x.name
    && (x.name != "" ==> !IsSpace(x.name[0]) && !IsSpace(x.name[|x.name| - 1]))
  }

  function Spelled(x: Spelling): string {
    x.lead + x.name + x.trail
  }

  function HeaderOf(xs: seq<Spelling>): string
    requires xs != []
  {
    if |xs| == 1 then Spelled(xs[0]) else Spelled(xs[0]) + "," + HeaderOf(xs[1..])
  }

  /** The codings meant: names in lower case, empty elements dropped. */
  function Meant(xs: seq<Spelling>): seq<string> {
    if xs == [] then [] else (if xs[0].name == "" then [] else [Lower(xs[0].name)]) + Meant(xs[1..])
  }

  lemma {:induction false} TrimLeftSpace(space: string, rest: string)
    requires AllSpace(space) && (rest == "" || !IsSpace(rest[0]))
    ensures TrimLeft(space + rest) == rest
  {
    if space == "" {
      assert space + rest == rest;
    } else {
      assert space[0] in space;
      assert (space + rest)[1..] == space[1..] + rest;
      TrimLeftSpace(space[1..], rest);
    }
  }

  lemma {:induction false} TrimRightSpace(rest: string, space: string)
    requires AllSpace(space) && (rest == "" || !IsSpace(rest[|rest| - 1]))
    ensures TrimRight(rest + space) == rest
  {
    if space == "" {
      assert rest + space == rest;
    } else {
      assert space[|space| - 1] in space;
      assert (rest + space)[..|rest + space| - 1] == rest + space[..|space| - 1];
      TrimRightSpace(rest, space[..|space| - 1]);
    }
  }

  lemma NormalizeSpelled(x: Spelling)
    requires ValidSpelling(x)
    ensures Normalize(Spelled(x)) == Lower(x.name) && ',' !in Spelled(x)
  {
    assert !IsSpace(',');
    if x.name == "" {
      assert Spelled(x) == (x.lead + x.trail) + "";
      TrimLeftSpace(x.lead + x.trail, "");
    } else {
      assert Spelled(x) == x.lead + (x.name + x.trail);
      TrimLeftSpace(x.lead, x.name + x.trail);
      TrimRightSpace(x.name, x.trail);
    }
  }

  lemma {:induction false} ParsingIgnoresSpelling(xs: seq<Spelling>)
    requires xs != [] && forall x | x in xs :: ValidSpelling(x)
    ensures ParseCodings(HeaderOf(xs)) == Meant(xs)
  {
    assert xs[0] in xs;
    NormalizeSpelled(xs[0]);
    if |xs| == 1 {
      ElementsWithoutComma(Spelled(xs[0]));
      CodingsOne(Spelled(xs[0]));
      assert Meant(xs[1..]) == [];
    } else {
      ElementsAtComma(Spelled(xs[0]), HeaderOf(xs[1..]));
      ParsingIgnoresSpelling(xs[1..]);
      CodingsCons(Spelled(xs[0]), Elements(HeaderOf(xs[1..])));
    }
  }

  /** Only the letters A to Z change, each to its small letter. */
  lemma LowerLetters(c: char)
    ensures LowerChar(c) as int == if 65 <= c as int <= 90 then c as int + 32 else c as int
  {
  }

  /** An example: the case of the letters, spaces and empty elements do not matter. */
  lemma ParseExample()
    ensures ParseCodings("GZIP , ,br") == ["gzip", "br"]
  {
    var xs := [Spelling("", "GZIP", " "), Spelling(" ", "", ""), Spelling("", "br", "")];
    assert Lower("GZIP") == "gzip" && Lower("br") == "br";
    assert forall x | x in xs :: ValidSpelling(x);
    assert xs[1..] == [xs[1], xs[2]] && xs[1..][1..] == [xs[2]] && xs[1..][1..][1..] == [];
    assert HeaderOf([xs[2]]) == "br";
    assert HeaderOf([xs[1], xs[2]]) == " ,br";
    assert HeaderOf(xs) == "GZIP , ,br";
    assert Meant([xs[2]]) == ["br"];
    assert Meant([xs[1], xs[2]]) == ["br"];
    assert Meant(xs) == ["gzip", "br"];
    ParsingIgnoresSpelling(xs);
  }

  // ----- The decoder table -----

  type Body = string

  datatype Decoder = Decoder(names: seq<string>, decode: (Body, string) -> Result<Body>)
  datatype Entry = Entry(encoding: string, decode: (Body, string) -> Result<Body>)

  predicate HasEntry(entries: seq<Entry>, encoding: string) {
    exists i | 0 <= i < |entries| :: entries[i].encoding == encoding
  }

  function AddNames(entries: seq<Entry>, d: Decoder, names: seq<string>): Result<seq<Entry>>
    decreases |names|
  {
    if names == [] then Ok(entries)
    else
      var name := Normalize(names[0]);
      if name == "" || HasEntry(entries, name) then Err
      else AddNames(entries + [Entry(name, d.decode)], d, names[1..])
  }

  /** `None` stands for a null decoder. */
  type Slot = Option<Decoder>

  function AddDecoders(entries: seq<Entry>, slots: seq<Slot>): Result<seq<Entry>>
    decreases |slots|
  {
    if slots == [] then Ok(entries)
    else if slots[0].None? || slots[0].value.names == [] then Err
    else
      match AddNames(entries, slots[0].value, slots[0].value.names)
      case Err => Err
      case Ok(more) => AddDecoders(more, slots[1..])
  }

  function DecoderEntries(slots: seq<Slot>): Result<seq<Entry>> {
    AddDecoders([], slots)
  }

  method BuildDecoderEntries(slots: seq<Slot>) returns (r: Result<seq<Entry>>)
    ensures r == DecoderEntries(slots)
  {
    var entries: seq<Entry> := [];
    for i := 0 to |slots|
      invariant AddDecoders(entries, slots[i..]) == DecoderEntries(slots)
    {
      assert slots[i..][0] == slots[i] && slots[i..][1..] == slots[i + 1..];
      if slots[i].None? || slots[i].value.names == [] {
        return Err;
      }
      var d := slots[i].value;
      ghost var before := entries;
      for j := 0 to |d.names|
        invariant AddNames(entries, d, d.names[j..]) == AddNames(before, d, d.names)
      {
        assert d.names[j..][0] == d.names[j] && d.names[j..][1..] == d.names[j + 1..];
        var name := Normalize(d.names[j]);
        if name == "" || HasEntry(entries, name) {
          return Err;
        }
        entries := entries + [Entry(name, d.decode)];
      }
    }
    return Ok(entries);
  }

  /** Names in the table are normalized, non-empty and distinct. */
  ghost predicate GoodTable(entries: seq<Entry>) {
    && (forall i | 0 <= i < |entries| ::
          entries[i].encoding != "" && Normalize(entries[i].encoding) == entries[i].encoding)
    && forall i, j | 0 <= i < j < |entries| :: entries[i].encoding != entries[j].encoding
  }

  lemma {:induction false} TrimLeftIdempotent(s: string)
    ensures TrimLeft(s) == "" || !IsSpace(TrimLeft(s)[0])
  {
    if s != "" && IsSpace(s[0]) {
      TrimLeftIdempotent(s[1..]);
    }
  }

  lemma {:induction false} TrimRightIdempotent(s: string)
    ensures TrimRight(s) == "" || !IsSpace(TrimRight(s)[|TrimRight(s)| - 1])
    ensures TrimRight(s) != "" ==> TrimRight(s)[0] == s[0]
  {
    if s != "" && IsSpace(s[|s| - 1]) {
      TrimRightIdempotent(s[..|s| - 1]);
    }
  }

  lemma NormalizeIdempotent(s: string)
    ensures Normalize(Normalize(s)) == Normalize(s)
    ensures Normalize(s) != "" ==> !IsSpace(Normalize(s)[0]) && !IsSpace(Normalize(s)[|Normalize(s)| - 1])
  {
    TrimLeftIdempotent(s);
    TrimRightIdempotent(TrimLeft(s));
    var t, n := Trim(s), Normalize(s);
    assert forall i | 0 <= i < |n| :: n[i] == LowerChar(t[i]) && LowerChar(n[i]) == n[i];
    assert Lower(n) == n;
  }

  lemma {:induction false} AddNamesKeepsTable(entries: seq<Entry>, d: Decoder, names: seq<string>)
    requires GoodTable(entries) && AddNames(entries, d, names).Ok?
    ensures GoodTable(AddNames(entries, d, names).value)
    decreases |names|
  {
    if names != [] {
      NormalizeIdempotent(names[0]);
      AddNamesKeepsTable(entries + [Entry(Normalize(names[0]), d.decode)], d, names[1..]);
    }
  }

  lemma {:induction false} TableIsGood(entries: seq<Entry>, slots: seq<Slot>)
    requires GoodTable(entries) && AddDecoders(entries, slots).Ok?
    ensures GoodTable(AddDecoders(entries, slots).value)
    decreases |slots|
  {
    if slots != [] {
      AddNamesKeepsTable(entries, slots[0].value, slots[0].value.names);
      TableIsGood(AddNames(entries, slots[0].value, slots[0].value.names).value, slots[1..]);
    }
  }

  /** The entries of one decoder, and of all decoders, in order. */
  function EntriesFor(d: Decoder, names: seq<string>): seq<Entry> {
    if names == [] then [] else [Entry(Normalize(names[0]), d.decode)] + EntriesFor(d, names[1..])
  }

  function AllEntries(slots: seq<Slot>): seq<Entry> {
    if slots == [] then []
    else (if slots[0].None? then [] else EntriesFor(slots[0].value, slots[0].value.names)) + AllEntries(slots[1..])
  }

  /** Every decoder is there and has a name. */
  predicate AllPresent(slots: seq<Slot>) {
    forall i | 0 <= i < |slots| :: slots[i].Some? && slots[i].value.names != []
  }

  /** No name is empty and none is repeated. */
  predicate Acceptable(entries: seq<Entry>) {
    && (forall i | 0 <= i < |entries| :: entries[i].encoding != "")
    && forall i, j | 0 <= i < j < |entries| :: entries[i].encoding != entries[j].encoding
  }

  lemma AcceptableNext(entries: seq<Entry>, e: Entry)
    requires Acceptable(entries)
    ensures Acceptable(entries + [e]) <==> e.encoding != "" && !HasEntry(entries, e.encoding)
  {
    var longer, n := entries + [e], |entries|;
    assert longer[n] == e && forall i | 0 <= i < n :: longer[i] == entries[i];
    if Acceptable(longer) {
      assert longer[n].encoding != "";
      forall i | 0 <= i < n ensures entries[i].encoding != e.encoding {
        assert longer[i].encoding != longer[n].encoding;
      }
    }
  }

  lemma AcceptablePrefix(entries: seq<Entry>, more: seq<Entry>)
    requires Acceptable(entries + more)
    ensures Acceptable(entries)
  {
    var longer := entries + more;
    assert forall i | 0 <= i < |entries| :: longer[i] == entries[i];
  }

  lemma {:induction false} AddNamesExactly(entries: seq<Entry>, d: Decoder, names: seq<string>)
    requires Acceptable(entries)
    ensures AddNames(entries, d, names) ==
            if Acceptable(entries + EntriesFor(d, names)) then Ok(entries + EntriesFor(d, names)) else Err
    decreases |names|
  {
    if names == [] {
      assert entries + [] == entries;
    } else {
      var e, rest := Entry(Normalize(names[0]), d.decode), EntriesFor(d, names[1..]);
      AcceptableNext(entries, e);
      assert entries + ([e] + rest) == (entries + [e]) + rest;
      if Acceptable(entries + [e]) {
        AddNamesExactly(entries + [e], d, names[1..]);
      } else if Acceptable((entries + [e]) + rest) {
        AcceptablePrefix(entries + [e], rest);
      }
    }
  }

  lemma {:induction false} AddDecodersExactly(entries: seq<Entry>, slots: seq<Slot>)
    requires Acceptable(entries)
    ensures AddDecoders(entries, slots) ==
            if AllPresent(slots) && Acceptable(entries + AllEntries(slots)) then Ok(entries + AllEntries(slots))
            else Err
    decreases |slots|
  {
    if slots == [] {
      assert entries + [] == entries;
    } else if slots[0].Some? && slots[0].value.names != [] {
      var d := slots[0].value;
      var own, rest := EntriesFor(d, d.names), AllEntries(slots[1..]);
      AddNamesExactly(entries, d, d.names);
      assert entries + (own + rest) == (entries + own) + rest;
      assert AllPresent(slots) <==> AllPresent(slots[1..]) by { AllPresentCons(slots); }
      if Acceptable(entries + own) {
        AddDecodersExactly(entries + own, slots[1..]);
      } else if Acceptable((entries + own) + rest) {
        AcceptablePrefix(entries + own, rest);
      }
    }
  }

  lemma AllPresentCons(slots: seq<Slot>)
    requires slots != []
    ensures AllPresent(slots) <==> slots[0].Some? && slots[0].value.names != [] && AllPresent(slots[1..])
  {
    if AllPresent(slots[1..]) {
      assert forall i | 0 < i < |slots| :: slots[i] == slots[1..][i - 1];
    }
  }

  /** The table is built exactly if every decoder is there and has a name, and the normalized names of all decoders
      are non-empty and distinct; it then holds exactly these names, in order, each with its decoder. */
  lemma DecoderEntriesExactly(slots: seq<Slot>)
    ensures DecoderEntries(slots) ==
            if AllPresent(slots) && Acceptable(AllEntries(slots)) then Ok(AllEntries(slots)) else Err
  {
    AddDecodersExactly([], slots);
    assert [] + AllEntries(slots) == AllEntries(slots);
  }

  // ----- Decoding -----

  function FindEntry(entries: seq<Entry>, encoding: string): (r: Result<Entry>)
    ensures r.Ok? <==> HasEntry(entries, encoding)
    ensures r.Ok? ==> r.value in entries && r.value.encoding == encoding
  {
    if entries == [] then Err
    else if entries[0].encoding == encoding then Ok(entries[0])
    else
      assert HasEntry(entries[1..], encoding) <==> HasEntry(entries, encoding) by {
        if HasEntry(entries, encoding) {
          var i :| 0 <= i < |entries| && entries[i].encoding == encoding;
          assert entries[1..][i - 1].encoding == encoding;
        }
        if HasEntry(entries[1..], encoding) {
          var i :| 0 <= i < |entries[1..]| && entries[1..][i].encoding == encoding;
          assert entries[i + 1].encoding == encoding;
        }
      }
      FindEntry(entries[1..], encoding)
  }

  const IDENTITY := "identity"

  /** Codings are undone last to first. */
  function DecodeAll(entries: seq<Entry>, codings: seq<string>, body: Body): Result<Body> {
    if codings == [] then Ok(body)
    else
      var last, front := codings[|codings| - 1], codings[..|codings| - 1];
      if last == IDENTITY then DecodeAll(entries, front, body)
      else
        match FindEntry(entries, last)
        case Err => Err
        case Ok(e) =>
          match e.decode(body, last)
          case Err => Err
          case Ok(b) => DecodeAll(entries, front, b)
  }

  function Decoded(body: Body, header: string, slots: seq<Slot>): Result<Body> {
    var codings := ParseCodings(header);
    if codings == [] then Ok(body)
    else
      match DecoderEntries(slots)
      case Err => Err
      case Ok(entries) => DecodeAll(entries, codings, body)
  }

  method UndoCodings(entries: seq<Entry>, codings: seq<string>, input: Body) returns (r: Result<Body>)
    ensures r == DecodeAll(entries, codings, input)
  {
    var body, k := input, |codings|;
    assert codings[..k] == codings;
    while k > 0
      invariant 0 <= k <= |codings|
      invariant DecodeAll(entries, codings[..k], body) == DecodeAll(entries, codings, input)
    {
      var last := codings[k - 1];
      assert codings[..k][..k - 1] == codings[..k - 1] && codings[..k][k - 1] == last;
      k := k - 1;
      if last == IDENTITY {
        continue;
      }
      var e := FindEntry(entries, last);
      if e.Err? {
        return Err;
      }
      var b := e.value.decode(body, last);
      if b.Err? {
        return Err;
      }
      body := b.value;
    }
    return Ok(body);
  }

  method DecodeHttpResponseBody(body: Body, header: string, slots: seq<Slot>) returns (r: Result<Body>)
    ensures r == Decoded(body, header, slots)
  {
    var codings := ParseContentEncodings(header);
    if codings == [] {
      return Ok(body);
    }
    var table := BuildDecoderEntries(slots);
    if table.Err? {
      return Err;
    }
    r := UndoCodings(table.value, codings, body);
  }

  /** A body encoded by each coding in the order listed. */
  function EncodeAll(encode: (string, Body) -> Body, codings: seq<string>, body: Body): Body {
    if codings == [] then body
    else
      var last, b := codings[|codings| - 1], EncodeAll(encode, codings[..|codings| - 1], body);
      if last == IDENTITY then b else encode(last, b)
  }

  ghost predicate Inverts(entries: seq<Entry>, encode: (string, Body) -> Body) {
    forall e, b | e in entries :: e.decode(encode(e.encoding, b), e.encoding) == Ok(b)
  }

  lemma {:induction false} DecodeAllUndoesEncodeAll(entries: seq<Entry>, encode: (string, Body) -> Body,
                                                    codings: seq<string>, body: Body)
    requires Inverts(entries, encode)
    requires forall c | c in codings :: c == IDENTITY || HasEntry(entries, c)
    ensures DecodeAll(entries, codings, EncodeAll(encode, codings, body)) == Ok(body)
  {
    if codings != [] {
      var last, front := codings[|codings| - 1], codings[..|codings| - 1];
      assert last in codings;
      DecodeAllUndoesEncodeAll(entries, encode, front, body);
      var b := EncodeAll(encode, front, body);
      if last != IDENTITY {
        var e := FindEntry(entries, last).value;
        assert e.decode(encode(e.encoding, b), e.encoding) == Ok(b);
      }
    }
  }

  /** If every decoder inverts its encoder, decoding undoes the codings of the header, however it
      spells them: casing, padding, empty elements and `identity` do not matter. */
  lemma DecodingUndoesEncoding(slots: seq<Slot>, encode: (string, Body) -> Body, xs: seq<Spelling>, body: Body)
    requires DecoderEntries(slots).Ok? && Inverts(DecoderEntries(slots).value, encode)
    requires xs != [] && forall x | x in xs :: ValidSpelling(x)
    requires forall c | c in Meant(xs) :: c == IDENTITY || HasEntry(DecoderEntries(slots).value, c)
    ensures Decoded(EncodeAll(encode, Meant(xs), body), HeaderOf(xs), slots) == Ok(body)
  {
    ParsingIgnoresSpelling(xs);
    DecodeAllUndoesEncodeAll(DecoderEntries(slots).value, encode, Meant(xs), body);
  }

  lemma {:induction false} UnknownCodingStops(entries: seq<Entry>, codings: seq<string>, body: Body, c: string)
    requires c in codings && c != IDENTITY && !HasEntry(entries, c)
    ensures DecodeAll(entries, codings, body) == Err
  {
    var last, front := codings[|codings| - 1], codings[..|codings| - 1];
    assert codings == front + [last];
    if last != c {
      if last == IDENTITY {
        UnknownCodingStops(entries, front, body, c);
      } else if FindEntry(entries, last).Ok? {
        var r := FindEntry(entries, last).value.decode(body, last);
        if r.Ok? {
          UnknownCodingStops(entries, front, r.value, c);
        }
      }
    }
  }

  /** A header that names a coding nobody advertised makes decoding fail, whatever the body and the other codings. */
  lemma UnknownCodingFails(body: Body, header: string, slots: seq<Slot>, c: string)
    requires c in ParseCodings(header) && c != IDENTITY
    requires DecoderEntries(slots).Ok? ==> !HasEntry(DecoderEntries(slots).value, c)
    ensures Decoded(body, header, slots) == Err
  {
    if DecoderEntries(slots).Ok? {
      UnknownCodingStops(DecoderEntries(slots).value, ParseCodings(header), body, c);
    }
  }

  lemma FindsTheEntry(entries: seq<Entry>, e: Entry)
    requires GoodTable(entries) && e in entries
    ensures FindEntry(entries, e.encoding) == Ok(e)
  {
    var i :| 0 <= i < |entries| && entries[i] == e;
    assert HasEntry(entries, e.encoding);
    var f := FindEntry(entries, e.encoding).value;
    var j :| 0 <= j < |entries| && entries[j] == f;
    assert i == j;
  }

  /** Of two codings the one listed last is undone first, by the decoder with its name; `identity` is no coding. */
  lemma LastListedIsUndoneFirst(slots: seq<Slot>, header: string, a: Entry, b: Entry, body: Body, x: Body, y: Body)
    requires DecoderEntries(slots).Ok? && a in DecoderEntries(slots).value && b in DecoderEntries(slots).value
    requires a.encoding != "identity" && b.encoding != "identity"
    requires ParseCodings(header) == [a.encoding, "identity", b.encoding]
    requires b.decode(body, b.encoding) == Ok(x) && a.decode(x, a.encoding) == Ok(y)
    ensures Decoded(body, header, slots) == Ok(y)
  {
    TableIsGood([], slots);
    var entries := DecoderEntries(slots).value;
    FindsTheEntry(entries, a);
    FindsTheEntry(entries, b);
    var codings := [a.encoding, "identity", b.encoding];
    assert codings[..2] == [a.encoding, "identity"] && codings[..2][..1] == [a.encoding] && [a.encoding][..0] == [];
    assert DecodeAll(entries, [a.encoding], x) == Ok(y);
    assert DecodeAll(entries, [a.encoding, "identity"], x) == DecodeAll(entries, [a.encoding], x);
  }

  // ----- Accept-Encoding -----

  function Names(entries: seq<Entry>): seq<string> {
    seq(|entries|, i requires 0 <= i < |entries| => entries[i].encoding)
  }

  function Joined(names: seq<string>): string {
    if names == [] then ""
    else if |names| == 1 then names[0]
    else Joined(names[..|names| - 1]) + ", " + names[|names| - 1]
  }

  /** The names are separated by a comma and a space. */
  lemma JoinedForms(names: seq<string>, a: string, b: string)
    ensures Joined([]) == "" && Joined([a]) == a && Joined(names + [a, b]) == Joined(names + [a]) + ", " + b
  {
    assert (names + [a, b])[..|names| + 1] == names + [a];
  }

  method BuildAcceptEncodingValue(slots: seq<Slot>) returns (r: Result<string>)
    ensures r == match DecoderEntries(slots) case Err => Err case Ok(entries) => Ok(Joined(Names(entries)))
  {
    var table := BuildDecoderEntries(slots);
    if table.Err? {
      return Err;
    }
    TableIsGood([], slots);
    var entries := table.value;
    var value := "";
    for i := 0 to |entries|
      invariant value == Joined(Names(entries[..i])) && (value == "" <==> i == 0)
    {
      assert Names(entries[..i + 1])[..i] == Names(entries[..i]);
      if value != "" {
        value := value + ", ";
      }
      value := value + entries[i].encoding;
    }
    assert entries[..|entries|] == entries;
    return Ok(value);
  }

  /** The advertised names as list elements: all but the first are preceded by the space after the comma. */
  ghost function Advertised(names: seq<string>, first: bool): seq<Spelling> {
    if names == [] then []
    else [Spelling(if first then "" else " ", names[0], "")] + Advertised(names[1..], false)
  }

  lemma {:induction false} JoinedCons(names: seq<string>)
    requires |names| > 1
    ensures Joined(names) == names[0] + ", " + Joined(names[1..])
  {
    var front, last := names[..|names| - 1], names[|names| - 1];
    if |names| > 2 {
      JoinedCons(front);
      assert front[1..] == names[1..][..|names| - 2];
      assert Joined(names[1..]) == Joined(front[1..]) + ", " + last;
      assert names[0] + ", " + (Joined(front[1..]) + ", " + last) == names[0] + ", " + Joined(front[1..]) + ", " + last;
    } else {
      assert Joined(front) == names[0] && names[1..] == [last];
    }
  }

  ghost predicate GoodNames(names: seq<string>) {
    forall n | n in names :: n != "" && Normalize(n) == n
  }

  lemma NormalNameIsTrimmed(n: string)
    requires n != "" && Normalize(n) == n
    ensures !IsSpace(n[0]) && !IsSpace(n[|n| - 1]) && Lower(n) == n
  {
    NormalizeIdempotent(n);
    assert forall i | 0 <= i < |n| :: n[i] == LowerChar(Trim(n)[i]) && LowerChar(n[i]) == n[i];
  }

  lemma AdvertisedName(n: string, first: bool)
    requires n != "" && Normalize(n) == n && ',' !in n
    ensures var x := Spelling(if first then "" else " ", n, "");
            ValidSpelling(x) && Spelled(x) == (if first then "" else " ") + n && Lower(n) == n
  {
    NormalNameIsTrimmed(n);
  }

  lemma {:induction false} AdvertisedMeans(names: seq<string>, first: bool)
    requires GoodNames(names) && forall n | n in names :: ',' !in n
    ensures var xs := Advertised(names, first);
            |xs| == |names| && (forall x | x in xs :: ValidSpelling(x)) && Meant(xs) == names
  {
    if names != [] {
      assert names[0] in names;
      AdvertisedName(names[0], first);
      AdvertisedMeans(names[1..], false);
      assert Advertised(names, first)[1..] == Advertised(names[1..], false);
      assert names == [names[0]] + names[1..];
    }
  }

  lemma PaddedJoin(pre: string, name: string, rest: string)
    ensures pre + name + "," + (" " + rest) == pre + (name + ", " + rest)
  {
  }

  lemma {:induction false} AdvertisedText(names: seq<string>, first: bool)
    requires names != [] && GoodNames(names) && forall n | n in names :: ',' !in n
    ensures Advertised(names, first) != []
    ensures HeaderOf(Advertised(names, first)) == (if first then "" else " ") + Joined(names)
  {
    var xs := Advertised(names, first);
    assert names[0] in names;
    AdvertisedName(names[0], first);
    AdvertisedMeans(names, first);
    assert xs[1..] == Advertised(names[1..], false);
    if |names| > 1 {
      AdvertisedText(names[1..], false);
      JoinedCons(names);
      PaddedJoin(if first then "" else " ", names[0], Joined(names[1..]));
    }
  }

  lemma {:induction false} ElementsHaveNoComma(s: string)
    ensures forall e | e in Elements(s) :: ',' !in e
  {
    if s != "" {
      ElementsHaveNoComma(s[1..]);
      var rest := Elements(s[1..]);
      assert rest[0] in rest;
    }
  }

  lemma LowerKeepsCommas(s: string)
    ensures ',' in Lower(s) <==> ',' in s
  {
    assert forall c :: LowerChar(c) == ',' <==> c == ',';
    assert forall i | 0 <= i < |s| :: Lower(s)[i] == LowerChar(s[i]);
  }

  lemma {:induction false} TrimAddsNothing(s: string)
    ensures forall c | c in TrimLeft(s) :: c in s
  {
    if s != "" && IsSpace(s[0]) {
      TrimAddsNothing(s[1..]);
    }
  }

  lemma {:induction false} TrimRightAddsNothing(s: string)
    ensures forall c | c in TrimRight(s) :: c in s
  {
    if s != "" && IsSpace(s[|s| - 1]) {
      TrimRightAddsNothing(s[..|s| - 1]);
    }
  }

  lemma {:induction false} CodingsHaveNoComma(elements: seq<string>)
    requires forall e | e in elements :: ',' !in e
    ensures forall c | c in Codings(elements) :: ',' !in c
  {
    if elements != [] {
      CodingsHaveNoComma(elements[1..]);
      var e := elements[0];
      assert e in elements;
      TrimAddsNothing(e);
      TrimRightAddsNothing(TrimLeft(e));
      LowerKeepsCommas(Trim(e));
    }
  }

  /** A peer that parses the advertised value finds the names in order exactly when none contains a comma. */
  lemma AcceptValueRoundTrip(slots: seq<Slot>)
    requires DecoderEntries(slots).Ok?
    ensures var names := Names(DecoderEntries(slots).value);
            ParseCodings(Joined(names)) == names <==> forall n | n in names :: ',' !in n
  {
    TableIsGood([], slots);
    var names := Names(DecoderEntries(slots).value);
    assert GoodNames(names);
    ElementsHaveNoComma(Joined(names));
    CodingsHaveNoComma(Elements(Joined(names)));
    if forall n | n in names :: ',' !in n {
      if names == [] {
        assert ParseCodings("") == [];
      } else {
        AdvertisedMeans(names, true);
        AdvertisedText(names, true);
        assert "" + Joined(names) == Joined(names);
        ParsingIgnoresSpelling(Advertised(names, true));
      }
    }
  }
}
