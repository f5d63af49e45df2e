/** The `/localnodes` response parser (src/live_nodes.cpp, ParseJsonStringArray):
    the position-based loops, a recursive parser they implement, and the grammar it accepts. */
module LocalNodesJson {
  import opened Basics

  /** The character a backslash escape stands for; `\u` is not among them. */
  function Unescape(c: char): Option<char> {
    if c == '"' || c == '\\' || c == '/' then Some(c)
    else if c == 'b' then Some('\U{08}')
    else if c == 'f' then Some('\U{0C}')
    else if c == 'n' then Some('\n')
    else if c == 'r' then Some('\r')
    else if c == 't' then Some('\t')
    else None
  }

  // ----- The recursive parser -----

  function SkipSpace(s: string): (r: string)
    ensures |r| <= |s|
  {
    if s != "" && IsSpace(s[0]) then SkipSpace(s[1..]) else s
  }

  datatype Reading<T> = Rejected | Read(value: T, rest: string)

  /** The characters up to the closing quote. */
  function ReadString(s: string): (r: Reading<string>)
    ensures r.Read? ==> |r.rest| < |s|
    decreases |s|
  {
    if s == "" then Rejected
    else if s[0] == '"' then Read("", s[1..])
    else if s[0] != '\\' then Prepend(s[0], ReadString(s[1..]))
    else if |s| < 2 || Unescape(s[1]) == None then Rejected
    else Prepend(Unescape(s[1]).value, ReadString(s[2..]))
  }

  function Prepend(c: char, r: Reading<string>): Reading<string> {
    match r
    case Rejected => Rejected
    case Read(value, rest) => Read([c] + value, rest)
  }

  /** Strings separated by commas, up to and including the closing bracket. */
  function ReadItems(s: string): Reading<seq<string>>
    decreases |s|
  {
    var quote := SkipSpace(s);
    if quote == "" || quote[0] != '"' then Rejected
    else
      match ReadString(quote[1..])
      case Rejected => Rejected
      case Read(value, rest) =>
        var next := SkipSpace(rest);
        if next == "" then Rejected
        else if next[0] == ']' then Read([value], next[1..])
        else if next[0] != ',' then Rejected
        else
          match ReadItems(next[1..])
          case Rejected => Rejected
          case Read(values, rest') => Read([value] + values, rest')
  }

  function Finished(r: Reading<seq<string>>): Option<seq<string>> {
    match r
    case Rejected => None
    case Read(values, rest) => if SkipSpace(rest) == "" then Some(values) else None
  }

  function Parse(s: string): Option<seq<string>> {
    var open := SkipSpace(s);
    if open == "" || open[0] != '[' then None
    else
      var inner := SkipSpace(open[1..]);
      if inner != "" && inner[0] == ']' then Finished(Read([], inner[1..])) else Finished(ReadItems(inner))
  }

  // ----- The grammar -----

  /** One element of a quoted string as it is written. */
  datatype Piece = Raw(c: char) | Escape(c: char) {
    predicate Valid() {
      match this
      case Raw(c) => c != '"' && c != '\\'
      case Escape(c) => Unescape(c).Some?
    }
    function Text(): string {
      match this
      case Raw(c) => [c]
      case Escape(c) => ['\\', c]
    }
    function Meaning(): char
      requires Valid()
    {
      match this
      case Raw(c) => c
      case Escape(c) => Unescape(c).value
    }
  }

  datatype Item = Item(before: string, pieces: seq<Piece>, after: string)

  /** `inner` is the space inside an empty array. */
  datatype Document = Document(lead: string, inner: string, items: seq<Item>, trail: string)

  predicate ValidPieces(ps: seq<Piece>) {
    forall p | p in ps :: p.Valid()
  }

  predicate ValidItem(i: Item) {
    AllSpace(i.before) && ValidPieces(i.pieces) && AllSpace(i.after)
  }

  predicate ValidDocument(d: Document) {
    AllSpace(d.lead) && AllSpace(d.inner) && (forall i | i in d.items :: ValidItem(i)) && AllSpace(d.trail)
  }

  function PiecesText(ps: seq<Piece>): string {
    if ps == [] then "" else ps[0].Text() + PiecesText(ps[1..])
  }

  function PiecesMeaning(ps: seq<Piece>): string
    requires ValidPieces(ps)
  {
    if ps == [] then "" else [ps[0].Meaning()] + PiecesMeaning(ps[1..])
  }

  function ItemText(i: Item): string {
    i.before + "\"" + PiecesText(i.pieces) + "\"" + i.after
  }

  function ItemsText(items: seq<Item>): string {
    if items == [] then "]"
    else ItemText(items[0]) + (if |items| == 1 then "]" else "," + ItemsText(items[1..]))
  }

  function ItemsMeaning(items: seq<Item>): seq<string>
    requires forall i | i in items :: ValidItem(i)
  {
    if items == [] then []
    else
      assert ValidItem(items[0]);
      [PiecesMeaning(items[0].pieces)] + ItemsMeaning(items[1..])
  }

  function Text(d: Document): string {
    d.lead + "[" + (if d.items == [] then d.inner else "") + ItemsText(d.items) + d.trail
  }

  function Meaning(d: Document): seq<string>
    requires ValidDocument(d)
  {
    ItemsMeaning(d.items)
  }

  // ----- Completeness: every document is accepted, with its meaning -----

  lemma {:induction false} SkipOver(space: string, rest: string)
    requires AllSpace(space) && (rest == "" || !IsSpace(rest[0]))
    ensures SkipSpace(space + rest) == rest
  {
    if space == "" {
      assert space + rest == rest;
    } else {
      assert space[0] in space;
      assert (space + rest)[1..] == space[1..] + rest;
      SkipOver(space[1..], rest);
    }
  }

  lemma PieceIsRead(p: Piece, tail: string)
    requires p.Valid()
    ensures ReadString(p.Text() + tail) == Prepend(p.Meaning(), ReadString(tail))
  {
    assert (p.Text() + tail)[|p.Text()|..] == tail;
  }

  lemma {:induction false} StringIsRead(ps: seq<Piece>, rest: string)
    requires ValidPieces(ps)
    ensures ReadString(PiecesText(ps) + ("\"" + rest)) == Read(PiecesMeaning(ps), rest)
  {
    var s := PiecesText(ps) + ("\"" + rest);
    if ps == [] {
      assert s == "\"" + rest && s[1..] == rest;
    } else {
      var p, tail := ps[0], PiecesText(ps[1..]) + ("\"" + rest);
      assert p in ps;
      StringIsRead(ps[1..], rest);
      assert s == p.Text() + tail;
      PieceIsRead(p, tail);
    }
  }

  lemma ItemShape(i: Item, after: string)
    ensures ItemText(i) + after == i.before + ("\"" + (PiecesText(i.pieces) + ("\"" + (i.after + after))))
  {
  }

  lemma ItemsTextStart(items: seq<Item>, rest: string)
    requires items != []
    ensures ItemsText(items) + rest ==
            ItemText(items[0]) + if |items| == 1 then "]" + rest else "," + (ItemsText(items[1..]) + rest)
  {
    if |items| > 1 {
      Regroup(ItemText(items[0]), "," + ItemsText(items[1..]), rest);
      Regroup(",", ItemsText(items[1..]), rest);
    } else {
      Regroup(ItemText(items[0]), "]", rest);
    }
  }

  /** The reader reads one item and then does what the next character says. */
  lemma ItemIsRead(i: Item, after: string)
    requires ValidItem(i) && after != "" && (after[0] == ']' || after[0] == ',')
    ensures ReadItems(ItemText(i) + after) ==
            if after[0] == ']' then Read([PiecesMeaning(i.pieces)], after[1..])
            else AppendItems([PiecesMeaning(i.pieces)], ReadItems(after[1..]))
  {
    ItemShape(i, after);
    var body := PiecesText(i.pieces) + ("\"" + (i.after + after));
    SkipOver(i.before, "\"" + body);
    assert ("\"" + body)[1..] == body;
    StringIsRead(i.pieces, i.after + after);
    SkipOver(i.after, after);
  }

  lemma {:induction false} ItemsAreRead(items: seq<Item>, rest: string)
    requires items != [] && forall i | i in items :: ValidItem(i)
    ensures ReadItems(ItemsText(items) + rest) == Read(ItemsMeaning(items), rest)
  {
    var i := items[0];
    assert i in items;
    var after := if |items| == 1 then "]" + rest else "," + (ItemsText(items[1..]) + rest);
    ItemsTextStart(items, rest);
    ItemIsRead(i, after);
    if |items| == 1 {
      assert after[1..] == rest;
      assert ItemsMeaning(items) == [PiecesMeaning(i.pieces)];
    } else {
      assert after[1..] == ItemsText(items[1..]) + rest;
      ItemsAreRead(items[1..], rest);
    }
  }

  lemma ItemsStart(items: seq<Item>, rest: string)
    requires items != [] && forall i | i in items :: ValidItem(i)
    ensures var s := SkipSpace(ItemsText(items) + rest);
            s != "" && s[0] == '"' && ReadItems(s) == ReadItems(ItemsText(items) + rest)
  {
    var i := items[0];
    assert i in items;
    var after := if |items| == 1 then "]" + rest else "," + (ItemsText(items[1..]) + rest);
    ItemsTextStart(items, rest);
    ItemShape(i, after);
    SkipOver(i.before, "\"" + (PiecesText(i.pieces) + ("\"" + (i.after + after))));
    SkipTwice(ItemsText(items) + rest);
  }

  lemma FilledText(lead: string, items: seq<Item>, trail: string)
    requires items != []
    ensures Text(Document(lead, "", items, trail)) == lead + ("[" + (ItemsText(items) + trail))
  {
    var t := ItemsText(items);
    assert lead + "[" + "" + t + trail == lead + ("[" + (t + trail));
  }

  lemma OpeningIsRead(lead: string, body: string)
    requires AllSpace(lead)
    ensures var open := SkipSpace(lead + ("[" + body)); open != "" && open[0] == '[' && open[1..] == body
  {
    SkipOver(lead, "[" + body);
    assert ("[" + body)[1..] == body;
  }

  lemma TrailIsSkipped(trail: string)
    requires AllSpace(trail)
    ensures SkipSpace(trail) == ""
  {
    SkipOver(trail, "");
    assert trail + "" == trail;
  }

  lemma EmptyDocumentIsAccepted(lead: string, inner: string, trail: string)
    requires AllSpace(lead) && AllSpace(inner) && AllSpace(trail)
    ensures Parse(lead + ("[" + (inner + ("]" + trail)))) == Some([])
  {
    OpeningIsRead(lead, inner + ("]" + trail));
    SkipOver(inner, "]" + trail);
    assert ("]" + trail)[1..] == trail;
    TrailIsSkipped(trail);
  }

  lemma FilledDocumentIsAccepted(lead: string, items: seq<Item>, trail: string)
    requires AllSpace(lead) && items != [] && (forall i | i in items :: ValidItem(i)) && AllSpace(trail)
    ensures Parse(lead + ("[" + (ItemsText(items) + trail))) == Some(ItemsMeaning(items))
  {
    OpeningIsRead(lead, ItemsText(items) + trail);
    ItemsStart(items, trail);
    ItemsAreRead(items, trail);
    TrailIsSkipped(trail);
  }

  lemma DocumentIsAccepted(d: Document)
    requires ValidDocument(d)
    ensures Parse(Text(d)) == Some(Meaning(d))
  {
    if d.items == [] {
      assert Text(d) == d.lead + ("[" + (d.inner + ("]" + d.trail)));
      EmptyDocumentIsAccepted(d.lead, d.inner, d.trail);
    } else {
      FilledText(d.lead, d.items, d.trail);
      assert Text(d) == Text(Document(d.lead, "", d.items, d.trail));
      FilledDocumentIsAccepted(d.lead, d.items, d.trail);
    }
  }

  // ----- Soundness: what is accepted is a document -----

  lemma {:induction false} SkippedIsSpace(s: string) returns (space: string)
    ensures AllSpace(space) && s == space + SkipSpace(s)
    ensures SkipSpace(s) == "" || !IsSpace(SkipSpace(s)[0])
  {
    if s != "" && IsSpace(s[0]) {
      var more := SkippedIsSpace(s[1..]);
      space := [s[0]] + more;
    } else {
      space := "";
    }
  }

  lemma {:induction false} StringHasPieces(s: string) returns (ps: seq<Piece>)
    requires ReadString(s).Read?
    ensures ValidPieces(ps) && s == PiecesText(ps) + ("\"" + ReadString(s).rest)
    ensures PiecesMeaning(ps) == ReadString(s).value
    decreases |s|
  {
    if s[0] == '"' {
      ps := [];
      assert s == "" + ("\"" + s[1..]);
    } else {
      var p := if s[0] != '\\' then Raw(s[0]) else Escape(s[1]);
      var tail := s[|p.Text()|..];
      var more := StringHasPieces(tail);
      ps := [p] + more;
      assert ps[1..] == more;
      assert s == p.Text() + tail;
      var rest := "\"" + ReadString(s).rest;
      assert p.Text() + (PiecesText(more) + rest) == PiecesText(ps) + rest;
    }
  }

  lemma FirstItem(s: string) returns (i: Item, next: string)
    requires ReadItems(s).Read?
    ensures ValidItem(i) && s == ItemText(i) + next && 0 < |next| < |s| && (next[0] == ']' || next[0] == ',')
    ensures ReadItems(s) == if next[0] == ']' then Read([PiecesMeaning(i.pieces)], next[1..])
                            else AppendItems([PiecesMeaning(i.pieces)], ReadItems(next[1..]))
  {
    var before := SkippedIsSpace(s);
    var quote := SkipSpace(s);
    var body := quote[1..];
    assert quote == "\"" + body;
    var pieces := StringHasPieces(body);
    var rest := ReadString(body).rest;
    var after := SkippedIsSpace(rest);
    next := SkipSpace(rest);
    i := Item(before, pieces, after);
    ItemShape(i, next);
  }

  lemma ItemsTextCons(i: Item, more: seq<Item>, rest: string)
    requires more != []
    ensures ItemsText([i] + more) + rest == ItemText(i) + ([','] + (ItemsText(more) + rest))
    ensures ValidItem(i) && (forall j | j in more :: ValidItem(j)) ==>
            (forall j | j in [i] + more :: ValidItem(j)) &&
            ItemsMeaning([i] + more) == [PiecesMeaning(i.pieces)] + ItemsMeaning(more)
  {
    assert ([i] + more)[1..] == more;
    assert ItemsText([i] + more) == ItemText(i) + ("," + ItemsText(more));
  }

  lemma {:induction false} ReadItemsIsItems(s: string) returns (items: seq<Item>)
    requires ReadItems(s).Read?
    ensures items != [] && (forall i | i in items :: ValidItem(i))
    ensures s == ItemsText(items) + ReadItems(s).rest && ItemsMeaning(items) == ReadItems(s).value
    decreases |s|
  {
    var i, next := FirstItem(s);
    var rest := ReadItems(s).rest;
    if next[0] == ']' {
      items := [i];
      assert next == "]" + rest;
      assert ItemsText(items) + rest == ItemText(i) + next;
    } else {
      var more := ReadItemsIsItems(next[1..]);
      items := [i] + more;
      assert next == [','] + next[1..];
      ItemsTextCons(i, more, rest);
    }
  }

  lemma EmptyDocument(s: string, lead: string, gap: string, trail: string)
    requires AllSpace(lead) && AllSpace(gap) && AllSpace(trail) && s == lead + ("[" + (gap + ("]" + trail)))
    ensures var d := Document(lead, gap, [], trail); ValidDocument(d) && Text(d) == s && Meaning(d) == []
  {
  }

  /** Space before the first item belongs to it. */
  lemma WidenFirst(gap: string, items: seq<Item>) returns (wider: seq<Item>)
    requires AllSpace(gap) && items != [] && forall i | i in items :: ValidItem(i)
    ensures wider != [] && (forall i | i in wider :: ValidItem(i))
    ensures ItemsText(wider) == gap + ItemsText(items) && ItemsMeaning(wider) == ItemsMeaning(items)
  {
    assert items[0] in items;
    var first := items[0].(before := gap + items[0].before);
    wider := [first] + items[1..];
    assert wider[1..] == items[1..];
    assert ItemText(first) == gap + ItemText(items[0]);
  }

  lemma FinishedItems(inner: string) returns (items: seq<Item>, trail: string)
    requires Finished(ReadItems(inner)).Some?
    ensures items != [] && (forall i | i in items :: ValidItem(i)) && AllSpace(trail)
    ensures inner == ItemsText(items) + trail && ItemsMeaning(items) == Finished(ReadItems(inner)).value
  {
    items := ReadItemsIsItems(inner);
    trail := SkippedIsSpace(ReadItems(inner).rest);
    assert trail + "" == trail;
  }

  lemma Regroup(a: string, b: string, c: string)
    ensures (a + b) + c == a + (b + c)
  {
  }

  lemma FilledDocument(s: string, lead: string, gap: string, inner: string) returns (d: Document)
    requires AllSpace(lead) && AllSpace(gap) && s == lead + ("[" + (gap + inner))
    requires Finished(ReadItems(inner)).Some?
    ensures ValidDocument(d) && Text(d) == s && Meaning(d) == Finished(ReadItems(inner)).value
  {
    var items, trail := FinishedItems(inner);
    var wider := WidenFirst(gap, items);
    d := Document(lead, "", wider, trail);
    FilledText(lead, wider, trail);
    Regroup(gap, ItemsText(items), trail);
  }

  lemma OpeningBracket(s: string) returns (lead: string, gap: string)
    requires Parse(s).Some?
    ensures AllSpace(lead) && AllSpace(gap)
    ensures SkipSpace(s) != "" && SkipSpace(s)[0] == '['
    ensures s == lead + ("[" + (gap + SkipSpace(SkipSpace(s)[1..])))
  {
    lead := SkippedIsSpace(s);
    var open := SkipSpace(s);
    assert open == "[" + open[1..];
    gap := SkippedIsSpace(open[1..]);
  }

  lemma AcceptedIsDocument(s: string) returns (d: Document)
    requires Parse(s).Some?
    ensures ValidDocument(d) && Text(d) == s && Meaning(d) == Parse(s).value
  {
    var lead, gap := OpeningBracket(s);
    var inner := SkipSpace(SkipSpace(s)[1..]);
    if inner != "" && inner[0] == ']' {
      var trail := SkippedIsSpace(inner[1..]);
      assert trail + "" == trail;
      assert inner == "]" + trail;
      EmptyDocument(s, lead, gap, trail);
      d := Document(lead, gap, [], trail);
    } else {
      d := FilledDocument(s, lead, gap, inner);
    }
  }

  /** The parser accepts exactly the documents of the grammar and returns the one list they denote. */
  lemma AcceptsExactlyTheGrammar(s: string, values: seq<string>)
    ensures Parse(s) == Some(values) <==> exists d :: ValidDocument(d) && Text(d) == s && Meaning(d) == values
  {
    if Parse(s) == Some(values) {
      var d := AcceptedIsDocument(s);
      assert ValidDocument(d) && Text(d) == s && Meaning(d) == values;
    }
    if d :| ValidDocument(d) && Text(d) == s && Meaning(d) == values {
      DocumentIsAccepted(d);
    }
  }

  // ----- A printer -----

  function Escaped(c: char): Piece {
    if c == '"' || c == '\\' then Escape(c) else Raw(c)
  }

  function Quoted(value: string): seq<Piece> {
    seq(|value|, i requires 0 <= i < |value| => Escaped(value[i]))
  }

  /** Prints a list, escaping only quotes and backslashes. */
  function Print(values: seq<string>): string {
    Text(Document("", "", seq(|values|, i requires 0 <= i < |values| => Item("", Quoted(values[i]), "")), ""))
  }

  lemma {:induction false} QuotedMeans(value: string)
    ensures ValidPieces(Quoted(value)) && PiecesMeaning(Quoted(value)) == value
  {
    if value != "" {
      QuotedMeans(value[1..]);
      assert Quoted(value)[1..] == Quoted(value[1..]);
      assert value == [value[0]] + value[1..];
    }
  }

  lemma {:induction false} PrintedMeans(values: seq<string>)
    ensures var items := seq(|values|, i requires 0 <= i < |values| => Item("", Quoted(values[i]), ""));
            (forall i | i in items :: ValidItem(i)) && ItemsMeaning(items) == values
  {
    var items := seq(|values|, i requires 0 <= i < |values| => Item("", Quoted(values[i]), ""));
    forall i | i in items ensures ValidItem(i) {
      var k :| 0 <= k < |values| && items[k] == i;
      QuotedMeans(values[k]);
    }
    if values != [] {
      PrintedMeans(values[1..]);
      QuotedMeans(values[0]);
      var rest := values[1..];
      assert items[1..] == seq(|rest|, i requires 0 <= i < |rest| => Item("", Quoted(rest[i]), ""));
      assert values == [values[0]] + values[1..];
    }
  }

  /** Parsing undoes printing. */
  lemma ParseUndoesPrint(values: seq<string>)
    ensures Parse(Print(values)) == Some(values)
  {
    PrintedMeans(values);
    var items := seq(|values|, i requires 0 <= i < |values| => Item("", Quoted(values[i]), ""));
    DocumentIsAccepted(Document("", "", items, ""));
  }

  lemma {:induction false} PlainText(value: string)
    requires forall c | c in value :: c != '"' && c != '\\'
    ensures PiecesText(Quoted(value)) == value
  {
    if value != "" {
      assert value[0] in value;
      assert value == [value[0]] + value[1..];
      assert forall c | c in value[1..] :: c in value;
      PlainText(value[1..]);
      assert Quoted(value)[1..] == Quoted(value[1..]);
    }
  }

  lemma PrintOne(value: string)
    ensures Print([value]) == "[\"" + PiecesText(Quoted(value)) + "\"]"
  {
    var items := seq(1, i requires 0 <= i < 1 => Item("", Quoted([value][i]), ""));
    var i := Item("", Quoted(value), "");
    assert items == [i];
    var text := PiecesText(Quoted(value));
    assert ItemText(i) == "\"" + text + "\"";
    assert ItemsText(items) == ItemText(i) + "]";
    FilledText("", items, "");
    assert "" + ("[" + (ItemText(i) + "]" + "")) == "[\"" + text + "\"]";
  }

  /** Unlike section 7 of RFC 8259, any unescaped character but quote and backslash is accepted as itself,
      control characters included. */
  lemma RawCharactersAreAccepted(value: string)
    requires forall c | c in value :: c != '"' && c != '\\'
    ensures Parse("[\"" + value + "\"]") == Some([value])
  {
    ParseUndoesPrint([value]);
    PrintOne(value);
    PlainText(value);
  }

  const ESCAPES := "\"\\/bfnrt"

  lemma {:induction false} BadEscapeInString(before: seq<Piece>, c: char, rest: string)
    requires ValidPieces(before) && c !in ESCAPES
    ensures ReadString(PiecesText(before) + (['\\', c] + rest)) == Rejected
  {
    var s := PiecesText(before) + (['\\', c] + rest);
    if before == [] {
      assert s == ['\\', c] + rest;
      assert s[0] == '\\' && s[1] == c;
      NotAnEscape(c);
    } else {
      var p, tail := before[0], PiecesText(before[1..]) + (['\\', c] + rest);
      assert p in before;
      BadEscapeInString(before[1..], c, rest);
      Regroup(p.Text(), PiecesText(before[1..]), ['\\', c] + rest);
      PieceIsRead(p, tail);
    }
  }

  lemma NotAnEscape(c: char)
    requires c !in ESCAPES
    ensures Unescape(c) == None
  {
    EscapeList(c);
  }

  lemma EscapeList(c: char)
    ensures c in ESCAPES <==>
            || c == '"' || c == '\\' || c == '/' || c == 'b' || c == 'f' || c == 'n' || c == 'r' || c == 't'
  {
    var e := ESCAPES;
    assert e[0] == '"' && e[1] == '\\' && e[2] == '/' && e[3] == 'b';
    assert e[4] == 'f' && e[5] == 'n' && e[6] == 'r' && e[7] == 't';
    assert forall i | 0 <= i < 8 :: e[i] in e;
  }

  /** Items that are each followed by a comma. */
  function ItemsThenCommas(items: seq<Item>): string {
    if items == [] then "" else ItemText(items[0]) + ("," + ItemsThenCommas(items[1..]))
  }

  lemma {:induction false} ItemsArePassed(items: seq<Item>, more: string)
    requires (forall i | i in items :: ValidItem(i)) && ReadItems(more) == Rejected
    ensures ReadItems(ItemsThenCommas(items) + more) == Rejected
  {
    if items == [] {
      assert "" + more == more;
    } else {
      var i, rest := items[0], ItemsThenCommas(items[1..]);
      assert i in items;
      ItemsArePassed(items[1..], more);
      ItemIsRead(i, "," + (rest + more));
      assert ("," + (rest + more))[1..] == rest + more;
      Regroup(ItemText(i), "," + rest, more);
      Regroup(",", rest, more);
    }
  }

  lemma {:induction false} SkipTwice(s: string)
    ensures SkipSpace(SkipSpace(s)) == SkipSpace(s)
  {
    if s != "" && IsSpace(s[0]) {
      SkipTwice(s[1..]);
    }
  }

  lemma RejectedItemsRejectTheText(lead: string, body: string)
    requires AllSpace(lead) && ReadItems(body) == Rejected && SkipSpace(body) != "" && SkipSpace(body)[0] != ']'
    ensures Parse(lead + ("[" + body)) == None
  {
    OpeningIsRead(lead, body);
    SkipTwice(body);
  }

  lemma StartsWithQuote(items: seq<Item>, space: string, body: string)
    requires (forall i | i in items :: ValidItem(i)) && AllSpace(space)
    ensures var s := SkipSpace(ItemsThenCommas(items) + (space + ("\"" + body))); s != "" && s[0] == '"'
  {
    var tail := space + ("\"" + body);
    if items == [] {
      assert "" + tail == tail;
      SkipOver(space, "\"" + body);
    } else {
      var i, after := items[0], "," + ItemsThenCommas(items[1..]);
      assert i in items;
      Regroup(ItemText(i), after, tail);
      ItemShape(i, after + tail);
      SkipOver(i.before, "\"" + (PiecesText(i.pieces) + ("\"" + (i.after + (after + tail)))));
    }
  }

  /** And a backslash before any other character than the eight, in particular `\u`, in any string of the array makes
      the whole text rejected. */
  lemma OtherEscapesAreRejected(lead: string, items: seq<Item>, space: string, before: seq<Piece>, c: char,
                                rest: string)
    requires AllSpace(lead) && (forall i | i in items :: ValidItem(i)) && AllSpace(space) && ValidPieces(before)
    requires c !in ESCAPES
    ensures var body := PiecesText(before) + (['\\', c] + rest);
            Parse(lead + ("[" + (ItemsThenCommas(items) + (space + ("\"" + body))))) == None
  {
    var body := PiecesText(before) + (['\\', c] + rest);
    BadEscapeInString(before, c, rest);
    SkipOver(space, "\"" + body);
    assert ("\"" + body)[1..] == body;
    ItemsArePassed(items, space + ("\"" + body));
    StartsWithQuote(items, space, body);
    RejectedItemsRejectTheText(lead, ItemsThenCommas(items) + (space + ("\"" + body)));
  }

  lemma UnicodeEscapesAreRejected(lead: string, items: seq<Item>, space: string, before: seq<Piece>, rest: string)
    requires AllSpace(lead) && (forall i | i in items :: ValidItem(i)) && AllSpace(space) && ValidPieces(before)
    ensures var body := PiecesText(before) + (['\\', 'u'] + rest);
            Parse(lead + ("[" + (ItemsThenCommas(items) + (space + ("\"" + body))))) == None
  {
    OtherEscapesAreRejected(lead, items, space, before, 'u', rest);
  }

  /** The character that each escape stands for, by its number. */
  function CodeOf(c: char): int {
    if c == 'b' then 8 else if c == 't' then 9 else if c == 'n' then 10 else if c == 'f' then 12
    else if c == 'r' then 13 else c as int
  }

  /** A string that is one of the eight escapes denotes the character with this number. */
  lemma EscapesDenote(c: char)
    requires c in ESCAPES
    ensures exists x: char :: x as int == CodeOf(c) && Parse("[\"" + ['\\', c] + "\"]") == Some([[x]])
  {
    EscapeList(c);
    var x := Unescape(c).value;
    OneEscape(c);
    assert x as int == CodeOf(c);
  }

  lemma OneEscape(c: char)
    requires Unescape(c).Some?
    ensures Parse("[\"" + ['\\', c] + "\"]") == Some([[Unescape(c).value]])
  {
    var i := Item("", [Escape(c)], "");
    FilledDocumentIsAccepted("", [i], "");
    assert [Escape(c)][1..] == [] && PiecesText([Escape(c)]) == ['\\', c];
    assert PiecesMeaning([Escape(c)]) == [Unescape(c).value];
    assert [i][1..] == [] && ItemsMeaning([i]) == [[Unescape(c).value]];
    assert ItemText(i) == "\"" + ['\\', c] + "\"";
    assert ItemsText([i]) == ItemText(i) + "]";
    assert "" + ("[" + (ItemText(i) + "]" + "")) == "[\"" + ['\\', c] + "\"]";
  }

  /** Space is what has number 9 to 13 or 32; anything else before the array makes the text rejected. */
  lemma SpaceBeforeArray(c: char)
    requires c != '['
    ensures Parse([c] + "[]") == if c as int == 32 || 9 <= c as int <= 13 then Some([]) else None
  {
    if IsSpace(c) {
      EmptyDocumentIsAccepted([c], "", "");
      assert [c] + ("[" + ("" + ("]" + ""))) == [c] + "[]";
    } else {
      assert ([c] + "[]")[0] == c;
    }
  }

  // ----- The loops -----

  method SkipWs(body: string, start: nat) returns (pos: nat)
    requires start <= |body|
    ensures start <= pos <= |body| && body[pos..] == SkipSpace(body[start..])
    ensures pos < |body| ==> !IsSpace(body[pos])
  {
    pos := start;
    while pos < |body| && IsSpace(body[pos])
      invariant start <= pos <= |body| && SkipSpace(body[pos..]) == SkipSpace(body[start..])
    {
      assert body[pos..][1..] == body[pos + 1..];
      pos := pos + 1;
    }
  }

  /** Skips space and consumes one expected character. */
  method Expect(body: string, start: nat, ch: char) returns (ok: bool, pos: nat)
    requires start <= |body|
    ensures var s := SkipSpace(body[start..]);
            && ok == (s != "" && s[0] == ch)
            && start <= pos <= |body|
            && (ok ==> start < pos && body[pos..] == s[1..])
  {
    pos := SkipWs(body, start);
    if pos >= |body| || body[pos] != ch {
      return false, pos;
    }
    assert body[pos..][1..] == body[pos + 1..];
    return true, pos + 1;
  }

  /** The inner loop; an unterminated string is noticed only by the caller, as end of input. */
  method ScanString(body: string, start: nat) returns (ok: bool, value: string, pos: nat)
    requires start <= |body|
    ensures start <= pos <= |body|
    ensures ReadString(body[start..]).Read? ==> ok && ReadString(body[start..]) == Read(value, body[pos..])
    ensures !ReadString(body[start..]).Read? ==> !ok || pos == |body|
  {
    value, pos := "", start;
    PrependAllNothing(ReadString(body[start..]));
    ok := true;
    var closed := false;
    while pos < |body| && !closed
      invariant start <= pos <= |body|
      invariant closed ==> ReadString(body[start..]) == Read(value, body[pos..])
      invariant !closed ==> ReadString(body[start..]) == PrependAll(value, ReadString(body[pos..]))
      decreases |body| - pos
    {
      ghost var here, r := pos, ReadString(body[pos..]);
      var ch := body[pos];
      pos := pos + 1;
      assert body[here..][1..] == body[pos..];
      if ch == '"' {
        closed := true;
        assert value + "" == value;
        continue;
      }
      if ch != '\\' {
        PrependAllSnoc(value, ch, ReadString(body[pos..]));
        value := value + [ch];
        continue;
      }
      if pos >= |body| {
        return false, value, pos;
      }
      var escaped := body[pos];
      pos := pos + 1;
      assert body[here..][1] == escaped && body[here..][2..] == body[pos..];
      match Unescape(escaped) {
        case None =>
          return false, value, pos;
        case Some(c) =>
          PrependAllSnoc(value, c, ReadString(body[pos..]));
          value := value + [c];
      }
    }
  }

  function PrependAll(value: string, r: Reading<string>): Reading<string> {
    match r
    case Rejected => Rejected
    case Read(v, rest) => Read(value + v, rest)
  }

  lemma PrependAllNothing(r: Reading<string>)
    ensures PrependAll("", r) == r
  {
    if r.Read? {
      assert "" + r.value == r.value;
    }
  }

  lemma PrependAllSnoc(value: string, c: char, r: Reading<string>)
    ensures PrependAll(value + [c], r) == PrependAll(value, Prepend(c, r))
  {
    if r.Read? {
      assert value + [c] + r.value == value + ([c] + r.value);
    }
  }

  function AppendItems(out: seq<string>, r: Reading<seq<string>>): Reading<seq<string>> {
    match r
    case Rejected => Rejected
    case Read(vs, rest) => Read(out + vs, rest)
  }

  /** The outer loop, after the opening bracket. */
  method ScanItems(body: string, start: nat) returns (ok: bool, out: seq<string>, pos: nat)
    requires start <= |body|
    ensures ok == ReadItems(body[start..]).Read?
    ensures start <= pos <= |body| && (ok ==> ReadItems(body[start..]) == Read(out, body[pos..]))
  {
    out, pos := [], start;
    AppendItemsNothing(ReadItems(body[start..]));
    while true
      invariant start <= pos <= |body|
      invariant ReadItems(body[start..]) == AppendItems(out, ReadItems(body[pos..]))
      decreases |body| - pos
    {
      ghost var items := ReadItems(body[pos..]);
      var quoted: bool;
      quoted, pos := Expect(body, pos, '"');
      if !quoted {
        return false, out, pos;
      }
      var value: string;
      ghost var s := ReadString(body[pos..]);
      ok, value, pos := ScanString(body, pos);
      if !ok {
        return false, out, pos;
      }
      pos := SkipWs(body, pos);
      if pos >= |body| {
        return false, out + [value], pos;
      }
      assert s == Read(value, s.rest);
      if body[pos] == ']' {
        assert body[pos..][1..] == body[pos + 1..];
        return true, out + [value], pos + 1;
      }
      assert SkipSpace(body[pos..]) == body[pos..];
      var comma: bool;
      comma, pos := Expect(body, pos, ',');
      if !comma {
        return false, out + [value], pos;
      }
      AppendItemsSnoc(out, value, ReadItems(body[pos..]));
      out := out + [value];
    }
  }

  lemma AppendItemsNothing(r: Reading<seq<string>>)
    ensures AppendItems([], r) == r
  {
    if r.Read? {
      assert [] + r.value == r.value;
    }
  }

  lemma AppendItemsSnoc(out: seq<string>, value: string, r: Reading<seq<string>>)
    ensures AppendItems(out + [value], r) == AppendItems(out, AppendItems([value], r))
  {
    if r.Read? {
      assert out + [value] + r.value == out + ([value] + r.value);
    }
  }

  method ParseJsonStringArray(body: string) returns (r: Option<seq<string>>)
    ensures r == Parse(body)
  {
    assert body[0..] == body;
    var ok, pos := Expect(body, 0, '[');
    if !ok {
      return None;
    }
    pos := SkipWs(body, pos);
    var out: seq<string> := [];
    if pos < |body| && body[pos] == ']' {
      assert body[pos..][1..] == body[pos + 1..];
      pos := SkipWs(body, pos + 1);
      return if pos != |body| then None else Some([]);
    }
    ok, out, pos := ScanItems(body, pos);
    if !ok {
      return None;
    }
    pos := SkipWs(body, pos);
    return if pos != |body| then None else Some(out);
  }
}
