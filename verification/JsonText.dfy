/**
 The JSON texts of RFC 8259 as a syntax tree with every choice of white space and escapes in it, and the agreement of
 the scanner with that grammar: of an object text followed by anything it extracts exactly the object text.
 */
module JsonText {
  import opened Framing

  const COMMA: byte := 44
  const COLON: byte := 58
  const OPEN_BRACKET: byte := 91
  const CLOSE_BRACKET: byte := 93
  const LETTER_U: byte := 117

  /** Section 7 of RFC 8259: a character of a string, plain, escaped by one letter, or by four hex digits. */
  datatype Char = Plain(b: byte) | Escaped(letter: byte) | Unicode(digits: seq<byte>)

  type Space = seq<byte>

  /** An array element with the white space around it. */
  datatype Item = Item(pre: Space, value: Value, post: Space)

  /** A member of an object: name, value, and the white space of section 2 around name, colon and value. */
  datatype Member = Member(pre: Space, name: seq<Char>, mid: Space, item: Item)

  /** A value; literals and numbers are just their letters. */
  datatype Value =
    | Word(letters: seq<byte>)
    | String(chars: seq<Char>)
    | Array(before: Space, items: seq<Item>)
    | Object(before: Space, members: seq<Member>)

  // ---------- the grammar ----------

  /** Section 2: space, tab, line feed, carriage return. */
  predicate IsJsonSpace(s: Space) {
    forall i :: 0 <= i < |s| ==> s[i] == 32 || s[i] == 9 || s[i] == 10 || s[i] == 13
  }

  /** The letters and signs literals and numbers are made of (sections 3 and 6). */
  predicate IsWordByte(b: byte) {
    97 <= b <= 122 || 48 <= b <= 57 || b == 43 || b == 45 || b == 46 || b == 69
  }

  predicate IsHexDigit(b: byte) {
    48 <= b <= 57 || 65 <= b <= 70 || 97 <= b <= 102
  }

  /** The letters that may follow a backslash, other than the u of a hex escape: quote \ / b f n r t. */
  predicate IsEscapeLetter(b: byte) {
    b == QUOTE || b == BACKSLASH || b == 47 || b == 98 || b == 102 || b == 110 || b == 114 || b == 116
  }

  predicate CharOk(c: Char) {
    match c
    case Plain(b) => b >= 32 && b != QUOTE && b != BACKSLASH
    case Escaped(letter) => IsEscapeLetter(letter)
    case Unicode(digits) => |digits| == 4 && forall i :: 0 <= i < 4 ==> IsHexDigit(digits[i])
  }

  predicate CharsOk(chars: seq<Char>) {
    forall i :: 0 <= i < |chars| ==> CharOk(chars[i])
  }

  predicate ItemOk(item: Item) {
    IsJsonSpace(item.pre) && ValueOk(item.value) && IsJsonSpace(item.post)
  }

  predicate MemberOk(m: Member) {
    IsJsonSpace(m.pre) && CharsOk(m.name) && IsJsonSpace(m.mid) && ItemOk(m.item)
  }

  predicate ValueOk(v: Value) {
    match v
    case Word(letters) => |letters| > 0 && forall i :: 0 <= i < |letters| ==> IsWordByte(letters[i])
    case String(chars) => CharsOk(chars)
    case Array(before, items) =>
      IsJsonSpace(before) && forall i :: 0 <= i < |items| ==> ItemOk(items[i])
    case Object(before, members) =>
      IsJsonSpace(before) && forall i :: 0 <= i < |members| ==> MemberOk(members[i])
  }

  // ---------- the text ----------

  function CharText(c: Char): seq<byte> {
    match c
    case Plain(b) => [b]
    case Escaped(letter) => [BACKSLASH, letter]
    case Unicode(digits) => [BACKSLASH, LETTER_U] + digits
  }

  function CharsText(chars: seq<Char>): seq<byte> {
    if |chars| == 0 then [] else CharText(chars[0]) + CharsText(chars[1..])
  }

  function StringText(chars: seq<Char>): seq<byte> {
    [QUOTE] + CharsText(chars) + [QUOTE]
  }

  function ItemText(item: Item): seq<byte>
    decreases item, 1
  {
    item.pre + (Text(item.value) + item.post)
  }

  function ItemsText(items: seq<Item>): seq<byte>
    decreases items, 0
  {
    if |items| == 0 then []
    else ItemText(items[0]) + ((if |items| == 1 then [] else [COMMA]) + ItemsText(items[1..]))
  }

  function MemberText(m: Member): seq<byte>
    decreases m, 1
  {
    m.pre + (StringText(m.name) + (m.mid + ([COLON] + ItemText(m.item))))
  }

  function MembersText(members: seq<Member>): seq<byte>
    decreases members, 0
  {
    if |members| == 0 then []
    else MemberText(members[0]) + ((if |members| == 1 then [] else [COMMA]) + MembersText(members[1..]))
  }

  function Text(v: Value): seq<byte>
    decreases v, 0
  {
    match v
    case Word(letters) => letters
    case String(chars) => StringText(chars)
    case Array(before, items) => [OPEN_BRACKET] + (before + (ItemsText(items) + [CLOSE_BRACKET]))
    case Object(before, members) => [OPEN_BRACE] + (before + (MembersText(members) + [CLOSE_BRACE]))
  }

  /** [1, 2] */
  lemma ListExample()
    ensures Text(Array([], [Item([], Word([49]), []), Item([32], Word([50]), [])])) == [91, 49, 44, 32, 50, 93]
  {
    var one, two := Item([], Word([49]), []), Item([32], Word([50]), []);
    assert [one, two][1..] == [two] && [two][1..] == [];
    assert ItemsText([two]) == [32, 50];
    assert ItemsText([one, two]) == [49, 44, 32, 50];
  }

  /** "\"}" */
  lemma StringExample()
    ensures StringText([Escaped(34), Plain(125)]) == [34, 92, 34, 125, 34]
    ensures StringText([Plain(97)]) == [34, 97, 34] && StringText([Plain(98)]) == [34, 98, 34]
  {
    assert [Escaped(34), Plain(125)][1..] == [Plain(125)] && [Plain(125)][1..] == [];
    assert CharsText([Plain(125)]) == [125];
    assert [Plain(97)][1..] == [] && [Plain(98)][1..] == [];
  }

  /** {a,b} for the texts of two members. */
  lemma TwoMembers(a: Member, b: Member)
    ensures Text(Object([], [a, b])) == [123] + (MemberText(a) + ([44] + MemberText(b)) + [125])
  {
    assert [a, b][1..] == [b] && [b][1..] == [];
    assert MembersText([b]) == MemberText(b);
    assert MembersText([a, b]) == MemberText(a) + ([44] + MemberText(b));
  }

  /** "name":value */
  lemma SimpleMember(name: seq<Char>, v: Value)
    ensures MemberText(Member([], name, [], Item([], v, []))) == StringText(name) + ([58] + Text(v))
  {
    assert ItemText(Item([], v, [])) == Text(v);
  }

  // ---------- scanning a piece of text ----------

  /** The scanner reads all of `t` from `st` without ending the object, and is then in `st'`. */
  ghost predicate Passes(st: Scan, t: seq<byte>, st': Scan)
    decreases |t|
  {
    if |t| == 0 then st == st' else !Closes(st, t[0]) && Passes(Step(st, t[0]), t[1..], st')
  }

  lemma {:induction false} PassesAppend(st: Scan, a: seq<byte>, mid: Scan, b: seq<byte>, st': Scan)
    requires Passes(st, a, mid) && Passes(mid, b, st')
    ensures Passes(st, a + b, st')
    decreases |a|
  {
    if |a| == 0 {
      assert a + b == b;
    } else {
      PassesAppend(Step(st, a[0]), a[1..], mid, b, st');
      assert (a + b)[1..] == a[1..] + b;
    }
  }

  lemma {:induction false} PassesThenEnds(st: Scan, t: seq<byte>, st': Scan, rest: seq<byte>)
    requires Passes(st, t, st') && ObjectEnd(st', rest) >= 0
    ensures ObjectEnd(st, t + rest) == |t| + ObjectEnd(st', rest)
    decreases |t|
  {
    if |t| == 0 {
      assert t + rest == rest;
    } else {
      PassesThenEnds(Step(st, t[0]), t[1..], st', rest);
      assert (t + rest)[1..] == t[1..] + rest;
    }
  }

  /** Inside an object but outside every string. */
  ghost predicate Between(st: Scan) {
    st.depth >= 1 && !st.inString && !st.escaping
  }

  /** A byte that means nothing to the scanner outside strings. */
  predicate Inert(b: byte) {
    b != QUOTE && b != OPEN_BRACE && b != CLOSE_BRACE
  }

  lemma {:induction false} PassesInert(st: Scan, t: seq<byte>)
    requires Between(st) && forall i :: 0 <= i < |t| ==> Inert(t[i])
    ensures Passes(st, t, st)
    decreases |t|
  {
    if |t| > 0 {
      PassesInert(st, t[1..]);
    }
  }

  lemma PassesEscape(st: Scan, letter: byte)
    requires st.inString && !st.escaping
    ensures Passes(st, [BACKSLASH, letter], st)
  {
    var mid := Step(st, BACKSLASH);
    assert [BACKSLASH, letter][1..] == [letter] && [letter][1..] == [];
    assert Step(mid, letter) == st;
    assert Passes(mid, [letter], st);
  }

  lemma {:induction false} PassesInString(st: Scan, t: seq<byte>)
    requires st.inString && !st.escaping && forall i :: 0 <= i < |t| ==> t[i] != QUOTE && t[i] != BACKSLASH
    ensures Passes(st, t, st)
    decreases |t|
  {
    if |t| > 0 {
      PassesInString(st, t[1..]);
    }
  }

  lemma PassesChar(st: Scan, c: Char)
    requires st.inString && !st.escaping && CharOk(c)
    ensures Passes(st, CharText(c), st)
  {
    match c
    case Plain(b) =>
      assert Step(st, b) == st && [b][1..] == [];
    case Escaped(letter) =>
      PassesEscape(st, letter);
    case Unicode(digits) =>
      PassesEscape(st, LETTER_U);
      PassesInString(st, digits);
      PassesAppend(st, [BACKSLASH, LETTER_U], st, digits, st);
  }

  lemma {:induction false} PassesChars(st: Scan, chars: seq<Char>)
    requires st.inString && !st.escaping && CharsOk(chars)
    ensures Passes(st, CharsText(chars), st)
    decreases |chars|
  {
    if |chars| > 0 {
      PassesChar(st, chars[0]);
      PassesChars(st, chars[1..]);
      PassesAppend(st, CharText(chars[0]), st, CharsText(chars[1..]), st);
    }
  }

  lemma PassesOne(st: Scan, b: byte, st': Scan)
    requires !Closes(st, b) && Step(st, b) == st'
    ensures Passes(st, [b], st')
  {
    assert [b][1..] == [];
  }

  lemma PassesString(st: Scan, chars: seq<Char>)
    requires Between(st) && CharsOk(chars)
    ensures Passes(st, StringText(chars), st)
  {
    var inside := st.(inString := true);
    PassesOne(st, QUOTE, inside);
    PassesChars(inside, chars);
    PassesOne(inside, QUOTE, st);
    PassesAppend(st, [QUOTE], inside, CharsText(chars), inside);
    PassesAppend(st, [QUOTE] + CharsText(chars), inside, [QUOTE], st);
  }

  lemma PassesSpace(st: Scan, s: Space)
    requires Between(st) && IsJsonSpace(s)
    ensures Passes(st, s, st)
  {
    PassesInert(st, s);
  }

  // ---------- values ----------

  lemma PassesEnclosed(st: Scan, open: byte, inside: Scan, space: Space, body: seq<byte>, close: byte, st': Scan)
    requires Passes(st, [open], inside) && Passes(inside, space, inside) && Passes(inside, body, inside)
    requires Passes(inside, [close], st')
    ensures Passes(st, [open] + (space + (body + [close])), st')
  {
    PassesAppend(inside, body, inside, [close], st');
    PassesAppend(inside, space, inside, body + [close], st');
    PassesAppend(st, [open], inside, space + (body + [close]), st');
  }

  lemma {:induction false} PassesItem(st: Scan, item: Item)
    requires Between(st) && ItemOk(item)
    ensures Passes(st, ItemText(item), st)
    decreases item, 1
  {
    PassesSpace(st, item.pre);
    PassesValue(st, item.value);
    PassesSpace(st, item.post);
    PassesAppend(st, Text(item.value), st, item.post, st);
    PassesAppend(st, item.pre, st, Text(item.value) + item.post, st);
  }

  lemma {:induction false} PassesItems(st: Scan, items: seq<Item>)
    requires Between(st) && forall i :: 0 <= i < |items| ==> ItemOk(items[i])
    ensures Passes(st, ItemsText(items), st)
    decreases items, 0
  {
    if |items| > 0 {
      var separator := if |items| == 1 then [] else [COMMA];
      PassesItem(st, items[0]);
      PassesItems(st, items[1..]);
      PassesInert(st, separator);
      PassesAppend(st, separator, st, ItemsText(items[1..]), st);
      PassesAppend(st, ItemText(items[0]), st, separator + ItemsText(items[1..]), st);
    }
  }

  lemma {:induction false} PassesMember(st: Scan, m: Member)
    requires Between(st) && MemberOk(m)
    ensures Passes(st, MemberText(m), st)
    decreases m, 1
  {
    PassesSpace(st, m.pre);
    PassesString(st, m.name);
    PassesSpace(st, m.mid);
    PassesOne(st, COLON, st);
    PassesItem(st, m.item);
    PassesAppend(st, [COLON], st, ItemText(m.item), st);
    PassesAppend(st, m.mid, st, [COLON] + ItemText(m.item), st);
    PassesAppend(st, StringText(m.name), st, m.mid + ([COLON] + ItemText(m.item)), st);
    PassesAppend(st, m.pre, st, StringText(m.name) + (m.mid + ([COLON] + ItemText(m.item))), st);
  }

  lemma {:induction false} PassesMembers(st: Scan, members: seq<Member>)
    requires Between(st) && forall i :: 0 <= i < |members| ==> MemberOk(members[i])
    ensures Passes(st, MembersText(members), st)
    decreases members, 0
  {
    if |members| > 0 {
      var separator := if |members| == 1 then [] else [COMMA];
      PassesMember(st, members[0]);
      PassesMembers(st, members[1..]);
      PassesInert(st, separator);
      PassesAppend(st, separator, st, MembersText(members[1..]), st);
      PassesAppend(st, MemberText(members[0]), st, separator + MembersText(members[1..]), st);
    }
  }

  /** Every value, however nested and whatever its strings contain, leaves the scanner as it found it. */
  lemma {:induction false} PassesValue(st: Scan, v: Value)
    requires Between(st) && ValueOk(v)
    ensures Passes(st, Text(v), st)
    decreases v, 0
  {
    match v
    case Word(letters) =>
      PassesInert(st, letters);
    case String(chars) =>
      PassesString(st, chars);
    case Array(before, items) =>
      PassesSpace(st, before);
      PassesItems(st, items);
      PassesOne(st, OPEN_BRACKET, st);
      PassesOne(st, CLOSE_BRACKET, st);
      PassesEnclosed(st, OPEN_BRACKET, st, before, ItemsText(items), CLOSE_BRACKET, st);
    case Object(before, members) =>
      var inside := st.(depth := st.depth + 1);
      PassesSpace(inside, before);
      PassesMembers(inside, members);
      PassesOne(st, OPEN_BRACE, inside);
      PassesOne(inside, CLOSE_BRACE, st);
      PassesEnclosed(st, OPEN_BRACE, inside, before, MembersText(members), CLOSE_BRACE, st);
  }

  // ---------- the agreement ----------

  lemma ExtractText(space: Space, text: seq<byte>, suffix: seq<byte>)
    requires IsJsonSpace(space) && |text| > 0 && text[0] == OPEN_BRACE
    requires ObjectEnd(START, text + suffix) == |text|
    ensures Extract(space + (text + suffix)) == Frame(text, suffix)
  {
    var s := space + (text + suffix);
    BlanksOfBlank(space);
    BlanksAppend(space, text + suffix);
    assert Blanks(text + suffix) == 0;
    assert s[|space|..] == text + suffix;
    ExtractOfTail(s, text + suffix);
    assert (text + suffix)[..|text|] == text && (text + suffix)[|text|..] == suffix;
  }

  /** The scanner finds the end of an object text whatever is behind it. */
  lemma TextEnds(v: Value, suffix: seq<byte>)
    requires ValueOk(v) && v.Object?
    ensures |Text(v)| > 0 && Text(v)[0] == OPEN_BRACE
    ensures ObjectEnd(START, Text(v) + suffix) == |Text(v)|
  {
    var inside := Scan(1, false, false);
    var body := v.before + MembersText(v.members);
    PassesSpace(inside, v.before);
    PassesMembers(inside, v.members);
    PassesAppend(inside, v.before, inside, MembersText(v.members), inside);
    PassesOne(START, OPEN_BRACE, inside);
    PassesAppend(START, [OPEN_BRACE], inside, body, inside);
    assert ObjectEnd(inside, [CLOSE_BRACE] + suffix) == 1;
    PassesThenEnds(START, [OPEN_BRACE] + body, inside, [CLOSE_BRACE] + suffix);
    assert Text(v) == ([OPEN_BRACE] + body) + [CLOSE_BRACE];
    assert Text(v) + suffix == ([OPEN_BRACE] + body) + ([CLOSE_BRACE] + suffix);
  }

  /**
   For every JSON object text, with any white space before it and anything after it, one extraction yields exactly the
   object text and leaves exactly what follows.
   */
  lemma ScannerAgrees(space: Space, v: Value, suffix: seq<byte>)
    requires IsJsonSpace(space) && ValueOk(v) && v.Object?
    ensures Extract(space + (Text(v) + suffix)) == Frame(Text(v), suffix)
  {
    TextEnds(v, suffix);
    ExtractText(space, Text(v), suffix);
  }

  // ---------- whole conversations ----------

  /** Messages as clients send them: object texts, each after some white space. */
  function Stream(spaces: seq<Space>, messages: seq<Value>): seq<byte>
    requires |spaces| == |messages|
  {
    if |messages| == 0 then []
    else spaces[0] + (Text(messages[0]) + Stream(spaces[1..], messages[1..]))
  }

  function Texts(messages: seq<Value>): seq<seq<byte>> {
    if |messages| == 0 then [] else [Text(messages[0])] + Texts(messages[1..])
  }

  lemma {:induction false} StreamFrames(spaces: seq<Space>, messages: seq<Value>)
    requires |spaces| == |messages|
    requires forall i :: 0 <= i < |messages| ==>
               IsJsonSpace(spaces[i]) && ValueOk(messages[i]) && messages[i].Object?
    ensures Frames(Drain(Stream(spaces, messages)).pieces) == Texts(messages)
    ensures Steady(Stream(spaces, messages))
    decreases |messages|
  {
    if |messages| == 0 {
      NoFramesLeft();
    } else {
      var rest := Stream(spaces[1..], messages[1..]);
      ScannerAgrees(spaces[0], messages[0], rest);
      FramesOfDrain(Stream(spaces, messages));
      StreamFrames(spaces[1..], messages[1..]);
    }
  }

  // ---------- what has arrived so far ----------

  ghost predicate AllObjects(spaces: seq<Space>, messages: seq<Value>) {
    && |spaces| == |messages|
    && forall i :: 0 <= i < |messages| ==> IsJsonSpace(spaces[i]) && ValueOk(messages[i]) && messages[i].Object?
  }

  /** How many messages are complete in the first k bytes of a stream. */
  function Completed(spaces: seq<Space>, messages: seq<Value>, k: nat): (m: nat)
    requires |spaces| == |messages|
    ensures m <= |messages|
  {
    if |messages| == 0 || k < |spaces[0]| + |Text(messages[0])| then 0
    else 1 + Completed(spaces[1..], messages[1..], k - |spaces[0]| - |Text(messages[0])|)
  }

  /** A message is among the completed ones iff the stream up to its end has arrived. */
  lemma {:induction false} CompletedMeans(spaces: seq<Space>, messages: seq<Value>, k: nat, i: nat)
    requires |spaces| == |messages| && i < |messages|
    ensures i < Completed(spaces, messages, k) <==> |Stream(spaces[..i + 1], messages[..i + 1])| <= k
    decreases |messages|
  {
    var size := |spaces[0]| + |Text(messages[0])|;
    assert spaces[..i + 1][1..] == spaces[1..][..i] && messages[..i + 1][1..] == messages[1..][..i];
    assert |Stream(spaces[..i + 1], messages[..i + 1])| == size + |Stream(spaces[1..][..i], messages[1..][..i])|;
    if i > 0 && k >= size {
      CompletedMeans(spaces[1..], messages[1..], k - size, i - 1);
    }
  }

  /** An object text cut short is not taken for an object. */
  lemma PartialEnd(v: Value, j: nat)
    requires ValueOk(v) && v.Object? && j < |Text(v)|
    ensures ObjectEnd(START, Text(v)[..j]) < 0
  {
    var text := Text(v);
    TextEnds(v, []);
    assert text + [] == text && text[..j] + text[j..] == text;
    if ObjectEnd(START, text[..j]) >= 0 {
      ObjectEndAppend(START, text[..j], text[j..]);
    }
  }

  lemma PartOfMessage(space: Space, text: seq<byte>, suffix: seq<byte>, k: nat)
    requires k < |space| + |text|
    ensures (space + (text + suffix))[..k] == if k <= |space| then space[..k] else space + text[..k - |space|]
  {
  }

  lemma UnfinishedObject(space: Space, part: seq<byte>)
    requires IsJsonSpace(space) && |part| > 0 && part[0] == OPEN_BRACE && ObjectEnd(START, part) < 0
    ensures Extract(space + part).NeedMore?
  {
    BlanksOfBlank(space);
    BlanksAppend(space, part);
    assert (space + part)[|space|..] == part;
    ExtractOfTail(space + part, part);
  }

  /** A message on its way is no request yet. */
  lemma PartialMessage(space: Space, v: Value, suffix: seq<byte>, k: nat)
    requires IsJsonSpace(space) && ValueOk(v) && v.Object? && k < |space| + |Text(v)|
    ensures Extract((space + (Text(v) + suffix))[..k]).NeedMore?
  {
    var text, s := Text(v), (space + (Text(v) + suffix))[..k];
    PartOfMessage(space, text, suffix, k);
    if k <= |space| {
      BlanksOfBlank(s);
      ExtractOfTail(s, []);
    } else {
      TextEnds(v, []);
      PartialEnd(v, k - |space|);
      UnfinishedObject(space, text[..k - |space|]);
    }
  }

  lemma FramesByExtract(s: seq<byte>)
    ensures Extract(s).NeedMore? ==> Frames(Drain(s).pieces) == [] && Steady(s)
    ensures Extract(s).Frame? && Extract(s).text[0] == OPEN_BRACE ==>
              && Frames(Drain(s).pieces) == [Extract(s).text] + Frames(Drain(Extract(s).rest).pieces)
              && Steady(s) == Steady(Extract(s).rest)
  {
    FramesOfDrain(s);
  }

  lemma BeyondMessage(space: Space, text: seq<byte>, rest: seq<byte>, k: nat)
    requires |space| + |text| <= k <= |space| + |text| + |rest|
    ensures (space + (text + rest))[..k] == space + (text + rest[..k - |space| - |text|])
  {
  }

  lemma FirstTexts(messages: seq<Value>, m: nat)
    requires m < |messages|
    ensures Texts(messages[..m + 1]) == [Text(messages[0])] + Texts(messages[1..][..m])
  {
    assert messages[..m + 1][1..] == messages[1..][..m];
  }

  lemma FirstMessage(space: Space, text: seq<byte>, rest: seq<byte>, trailing: Space)
    ensures (space + (text + rest)) + trailing == space + (text + (rest + trailing))
  {
  }

  lemma NoFramesInBlanks(s: seq<byte>)
    requires Blank(s)
    ensures Frames(Drain(s).pieces) == [] && Steady(s)
  {
    BlanksOfBlank(s);
    ExtractOfTail(s, []);
    FramesByExtract(s);
  }

  /** What the first k bytes of a stream hold of its first message, and of the rest. */
  lemma PrefixStep(space: Space, v: Value, rest: seq<byte>, k: nat)
    requires IsJsonSpace(space) && ValueOk(v) && v.Object? && k <= |space + (Text(v) + rest)|
    ensures var s, size := (space + (Text(v) + rest))[..k], |space| + |Text(v)|;
            && (k < size ==> Frames(Drain(s).pieces) == [] && Steady(s))
            && (k >= size ==>
                  && Frames(Drain(s).pieces) == [Text(v)] + Frames(Drain(rest[..k - size]).pieces)
                  && Steady(s) == Steady(rest[..k - size]))
  {
    var size := |space| + |Text(v)|;
    if k < size {
      PartialMessage(space, v, rest, k);
      FramesByExtract((space + (Text(v) + rest))[..k]);
    } else {
      BeyondMessage(space, Text(v), rest, k);
      ScannerAgrees(space, v, rest[..k - size]);
      FramesByExtract(space + (Text(v) + rest[..k - size]));
    }
  }

  /** The frames of the first k bytes of a client's stream are its completed messages. */
  lemma {:induction false} PrefixFrames(spaces: seq<Space>, messages: seq<Value>, trailing: Space, k: nat)
    requires AllObjects(spaces, messages) && IsJsonSpace(trailing)
    requires k <= |Stream(spaces, messages) + trailing|
    ensures var s := (Stream(spaces, messages) + trailing)[..k];
            && Frames(Drain(s).pieces) == Texts(messages[..Completed(spaces, messages, k)])
            && Steady(s)
    decreases |messages|
  {
    var s := (Stream(spaces, messages) + trailing)[..k];
    if |messages| == 0 {
      assert s == trailing[..k];
      NoFramesInBlanks(s);
    } else {
      var rest, size := Stream(spaces[1..], messages[1..]) + trailing, |spaces[0]| + |Text(messages[0])|;
      assert Stream(spaces, messages) + trailing == spaces[0] + (Text(messages[0]) + rest) by {
        FirstMessage(spaces[0], Text(messages[0]), Stream(spaces[1..], messages[1..]), trailing);
      }
      PrefixStep(spaces[0], messages[0], rest, k);
      if k >= size {
        var m := Completed(spaces[1..], messages[1..], k - size);
        PrefixFrames(spaces[1..], messages[1..], trailing, k - size);
        FirstTexts(messages, m);
        assert Completed(spaces, messages, k) == m + 1;
      } else {
        assert Completed(spaces, messages, k) == 0;
        assert messages[..0] == [];
      }
    }
  }

  /**
   However the bytes of a client are cut into pieces on the way, at every moment the server has taken exactly the
   messages that are complete by then: none is lost, torn or taken early, whatever white space is between or behind them.
   */
  lemma MessagesArrive(spaces: seq<Space>, messages: seq<Value>, trailing: Space, chunks: seq<seq<byte>>)
    requires AllObjects(spaces, messages) && IsJsonSpace(trailing)
    requires Concat(chunks) <= Stream(spaces, messages) + trailing
    ensures Frames(Feed([], chunks).pieces) == Texts(messages[..Completed(spaces, messages, |Concat(chunks)|)])
  {
    var s := Concat(chunks);
    assert s == (Stream(spaces, messages) + trailing)[..|s|];
    PrefixFrames(spaces, messages, trailing, |s|);
    ChunkIndependence(s);
  }

  /** Once the last message is there, all of them have been taken, with or without white space behind it. */
  lemma {:induction false} AllArrive(spaces: seq<Space>, messages: seq<Value>, k: nat)
    requires |spaces| == |messages| && k >= |Stream(spaces, messages)|
    ensures Completed(spaces, messages, k) == |messages|
    decreases |messages|
  {
    if |messages| > 0 {
      AllArrive(spaces[1..], messages[1..], k - |spaces[0]| - |Text(messages[0])|);
    }
  }
}
