/** Templates as their authors write them: what a layout of texts and holes prints. */
module WrittenTemplate {
  import opened Wrappers
  import opened Template

  // ---- Numbers ----

  /** Digits are read from the left, each worth ten times the next. */
  lemma NumberNext(s: string, c: char)
    requires AllDigits(s) && IsDigit(c)
    ensures AllDigits(s + [c]) && Number(s + [c]) == 10 * Number(s) + (c as nat - '0' as nat)
  {
    assert (s + [c])[..|s|] == s;
  }

  /** The decimal of a number has no leading zero and is the only one without that has this value. */
  lemma {:induction false} DecimalExactly(s: string, n: nat)
    ensures s == Decimal(n) <==> s != "" && AllDigits(s) && Number(s) == n && (|s| > 1 ==> s[0] != '0')
  {
    if s == Decimal(n) {
      NumberOfDecimal(n);
      NoLeadingZero(n);
    }
    if s != "" && AllDigits(s) && Number(s) == n && (|s| > 1 ==> s[0] != '0') {
      DecimalOfNumber(s);
    }
  }

  lemma {:induction false} NoLeadingZero(n: nat)
    ensures n > 0 ==> Decimal(n)[0] != '0'
    ensures n < 10 ==> |Decimal(n)| == 1
  {
    if n >= 10 { NoLeadingZero(n / 10); }
  }

  lemma {:induction false} DecimalOfNumber(s: string)
    requires s != "" && AllDigits(s) && (|s| > 1 ==> s[0] != '0')
    ensures Decimal(Number(s)) == s && (s[0] != '0' ==> Number(s) > 0)
  {
    var head, last := s[..|s| - 1], s[|s| - 1];
    assert s == head + [last];
    NumberNext(head, last);
    if head == "" {
      assert Number(head) == 0;
    } else {
      assert head[0] == s[0];
      DecimalOfNumber(head);
      assert Number(s) / 10 == Number(head) && Number(s) % 10 == last as nat - '0' as nat;
      assert Digit(Number(s) % 10) == last;
    }
  }

  // ---- Holes ----

  /** The text between the braces of an operand's hole. */
  function BodyOf(i: nat, style: string): string {
    if style == "" then Decimal(i) else Decimal(i) + ":" + style
  }

  /** A hole is cut at its first colon, and a number before it is what it prints. */
  lemma HoleParses(i: nat, style: string)
    requires i < 0x1_0000_0000_0000_0000
    ensures SlotOf(Hole(Decimal(i))) == Arg(i, "")
    ensures SlotOf(Hole(Decimal(i) + ":" + style)) == Arg(i, style)
  {
    hide Decimal, Find;
    var d := Decimal(i);
    NumberOfDecimal(i);
    assert IsDigit(d[0]) && ':' !in d;
    FindAt(d, ':', style);
    assert Find(d, ':') == None;
    assert (d + ":" + style)[|d| + 1..] == style && (d + ":" + style)[..|d|] == d;
  }

  lemma FindAt(head: string, c: char, tail: string)
    requires c !in head
    ensures Find(head + [c] + tail, c) == Some(|head|)
  {
    hide Find;
    var s := head + [c] + tail;
    var found := Find(s, c);
    assert s[|head|] == c;
    assert forall k :: 0 <= k < |head| ==> s[k] == head[k];
    forall k | |head| < k <= |s| ensures c in s[..k] { assert s[..k][|head|] == c; }
  }

  /** A hole without a number prints nothing, whatever else it holds. */
  lemma NumberlessPrintsNothing(style: string, printer: Printer)
    ensures Printed(SlotOf(Hole("")), printer) == "" && Printed(SlotOf(Hole(":" + style)), printer) == ""
  {
    FindAt("", ':', style);
    assert "" + ":" + style == ":" + style;
  }

  // ---- Tokens ----

  /** Texts without an opening brace, none empty and no two in a row; bodies without a closing one. */
  predicate Neat(tokens: seq<Token>) {
    && (forall k :: 0 <= k < |tokens| ==> NeatToken(tokens[k]))
    && forall k :: 0 < k < |tokens| ==> tokens[k - 1].Hole? || tokens[k].Hole?
  }

  predicate NeatToken(t: Token) {
    match t
    case Text(text) => text != "" && '{' !in text
    case Hole(body) => '}' !in body
  }

  lemma FirstHoleAt(text: string, body: string, tail: string)
    requires '{' !in text && '}' !in body
    ensures FirstHole(text + ("{" + body + "}" + tail)) == Some((|text|, |body| + 1))
  {
    hide Find;
    var rest := "{" + body + "}" + tail;
    var s := text + rest;
    FindAt(text, '{', body + "}" + tail);
    assert text + ['{'] + (body + "}" + tail) == s;
    FindAt("{" + body, '}', tail);
    assert s[|text|..] == rest;
  }

  lemma HoleFirst(text: string, body: string, tail: string)
    requires '{' !in text && '}' !in body
    ensures Tokens(text + ("{" + body + "}" + tail)) ==
            (if text == "" then [] else [Text(text)]) + [Hole(body)] + Tokens(tail)
  {
    hide FirstHole, Tokens;
    FirstHoleAt(text, body, tail);
    var s := text + ("{" + body + "}" + tail);
    TokensStep(s, |text|, |body| + 1);
    assert s[..|text|] == text;
    assert s[|text| + 1..|text| + (|body| + 1)] == body;
    assert s[|text| + (|body| + 1) + 1..] == tail;
  }

  lemma TextAlone(text: string)
    requires '{' !in text
    ensures Tokens(text) == if text == "" then [] else [Text(text)]
  {
    hide Find;
  }

  lemma NeatRest(tokens: seq<Token>, n: nat)
    requires Neat(tokens) && n <= |tokens|
    ensures Neat(tokens[n..])
  {
    hide NeatToken;
  }

  lemma SourceTwo(tokens: seq<Token>)
    requires |tokens| >= 2
    ensures Source(tokens) == SourceOf(tokens[0]) + (SourceOf(tokens[1]) + Source(tokens[2..]))
  {
    hide SourceOf;
    assert tokens[1..][1..] == tokens[2..];
  }

  /** Tokenising neat tokens written out gives them back. */
  lemma {:induction false} TokensComeBack(tokens: seq<Token>)
    requires Neat(tokens)
    ensures Tokens(Source(tokens)) == tokens
  {
    hide Tokens;
    if tokens == [] {
      TextAlone("");
    } else if tokens[0].Hole? {
      NeatRest(tokens, 1);
      TokensComeBack(tokens[1..]);
      var body, tail := tokens[0].body, Source(tokens[1..]);
      HoleFirst("", body, tail);
      assert "" + ("{" + body + "}" + tail) == Source(tokens);
      assert tokens == [] + [Hole(body)] + tokens[1..];
    } else if |tokens| == 1 {
      TextAlone(tokens[0].text);
      assert tokens == [tokens[0]];
      SourceOne(tokens[0]);
    } else {
      NeatRest(tokens, 2);
      TokensComeBack(tokens[2..]);
      assert tokens[1].Hole?;
      SourceTwo(tokens);
      HoleFirst(tokens[0].text, tokens[1].body, Source(tokens[2..]));
      assert tokens == [tokens[0]] + [tokens[1]] + tokens[2..];
    }
  }

  // ---- Written layouts ----

  /** A text, or a hole with its operand's number and style, as it stands in a template. */
  function Written(slot: Slot): Token {
    match slot
    case Literal(text) => Text(text)
    case Arg(i, style) => Hole(BodyOf(i, style))
  }

  function WrittenTokens(slots: seq<Slot>): (tokens: seq<Token>)
    ensures |tokens| == |slots| && forall k :: 0 <= k < |tokens| ==> tokens[k] == Written(slots[k])
  {
    seq(|slots|, k requires 0 <= k < |slots| => Written(slots[k]))
  }

  function Write(slots: seq<Slot>): string {
    Source(WrittenTokens(slots))
  }

  /** Texts and styles without a brace, no empty text and no two in a row. */
  predicate Writable(slots: seq<Slot>) {
    && (forall k :: 0 <= k < |slots| ==> WritableSlot(slots[k]))
    && forall k :: 0 < k < |slots| ==> slots[k - 1].Arg? || slots[k].Arg?
  }

  predicate WritableSlot(slot: Slot) {
    match slot
    case Literal(text) => text != "" && '{' !in text
    case Arg(i, style) => i < 0x1_0000_0000_0000_0000 && '{' !in style && '}' !in style
  }

  lemma SlotComesBack(slot: Slot)
    requires WritableSlot(slot)
    ensures NeatToken(Written(slot)) && SlotOf(Written(slot)) == slot && CanonicalToken(Written(slot))
    ensures forall i: nat :: IsHoleOf(Written(slot), i) <==> slot.Arg? && slot.index == i
  {
    hide Decimal, Find, SlotOf;
    if slot.Arg? {
      HoleParses(slot.index, slot.style);
      NumberIs(slot.index, slot.style);
      assert AllDigits(Decimal(slot.index));
      forall i: nat | Decimal(i) == Decimal(slot.index) ensures i == slot.index {
        NumberOfDecimal(i);
        NumberOfDecimal(slot.index);
      }
    } else {
      hide *;
      TextIs(slot.text);
    }
  }

  lemma TextIs(text: string)
    requires text != "" && '{' !in text
    ensures Written(Literal(text)) == Text(text) && NeatToken(Text(text)) && SlotOf(Text(text)) == Literal(text)
    ensures CanonicalToken(Text(text)) && forall i: nat :: !IsHoleOf(Text(text), i)
  {}

  lemma NumberIs(i: nat, style: string)
    ensures NumberPart(BodyOf(i, style)) == Decimal(i)
  {
    hide Decimal, Find;
    var d := Decimal(i);
    assert ':' !in d;
    FindAt(d, ':', style);
    assert Find(d, ':') == None;
    assert (d + ":" + style)[..|d|] == d;
  }

  /** A written layout is read back slot for slot. */
  lemma SlotsComeBack(slots: seq<Slot>)
    requires Writable(slots)
    ensures Tokens(Write(slots)) == WrittenTokens(slots) && SlotsOf(Tokens(Write(slots))) == slots
  {
    hide Tokens, Source, WritableSlot, Written, SlotOf, NeatToken;
    var tokens := WrittenTokens(slots);
    forall k | 0 <= k < |slots|
      ensures NeatToken(tokens[k]) && SlotOf(tokens[k]) == slots[k] && tokens[k].Hole? == slots[k].Arg?
    {
      SlotComesBack(slots[k]);
      KindKept(slots[k]);
    }
    TokensComeBack(tokens);
  }

  lemma KindKept(slot: Slot)
    ensures Written(slot).Hole? == slot.Arg?
  {}

  predicate Names(slots: seq<Slot>, i: nat) {
    exists k :: 0 <= k < |slots| && slots[k].Arg? && slots[k].index == i
  }

  /** A written layout has a hole for an operand if and only if one of its slots prints it. */
  lemma HoleIsSlot(slots: seq<Slot>)
    requires Writable(slots)
    ensures Canonical(Tokens(Write(slots)))
    ensures forall i: nat :: HasHole(Tokens(Write(slots)), i) <==> Names(slots, i)
  {
    hide Tokens, Source, WritableSlot, Written, SlotOf, NeatToken, CanonicalToken, IsHoleOf;
    SlotsComeBack(slots);
    var tokens := WrittenTokens(slots);
    forall k | 0 <= k < |slots|
      ensures CanonicalToken(tokens[k])
      ensures forall i: nat :: IsHoleOf(tokens[k], i) <==> slots[k].Arg? && slots[k].index == i
    {
      SlotComesBack(slots[k]);
    }
    forall i: nat ensures HasHole(tokens, i) <==> Names(slots, i) {
      if HasHole(tokens, i) {
        var k :| 0 <= k < |tokens| && IsHoleOf(tokens[k], i);
        assert slots[k].index == i;
      }
      if Names(slots, i) {
        var k :| 0 <= k < |slots| && slots[k].Arg? && slots[k].index == i;
        assert IsHoleOf(tokens[k], i);
      }
    }
  }

  // ---- Lines ----

  /** Slots are printed one behind the other. */
  lemma {:induction false} RenderedParts(a: seq<Slot>, b: seq<Slot>, printer: Printer)
    ensures Rendered(a + b, printer) == Rendered(a, printer) + Rendered(b, printer)
  {
    hide Printed, Rendered;
    RenderedNothing(printer);
    if b == [] {
      assert a + b == a;
    } else {
      var n := |b| - 1;
      RenderedParts(a, b[..n], printer);
      RenderNext(a + b[..n], b[n], printer);
      RenderNext(b[..n], b[n], printer);
      assert a + b == a + b[..n] + [b[n]];
      assert b == b[..n] + [b[n]];
    }
  }

  lemma RenderedOne(slot: Slot, printer: Printer)
    ensures Rendered([slot], printer) == Printed(slot, printer)
  {
    hide Printed;
    assert [slot][..0] == [];
  }

  lemma RenderedNothing(printer: Printer)
    ensures Rendered([], printer) == ""
  {}

  lemma {:induction false} WriteNotEmpty(slots: seq<Slot>)
    requires Writable(slots) && slots != []
    ensures Write(slots) != ""
  {
    hide Decimal, SlotOf;
    assert WritableSlot(slots[0]);
  }

  lemma Shown(mnemonic: string, template: string, layout: seq<Slot>, values: seq<int>, printer: Printer)
    requires LayoutOf(template, values) == Write(layout) && layout != []
    requires Writable(layout) && InRange(layout, |values|)
    ensures TextOf(mnemonic, template, values, printer) == mnemonic + " " + Rendered(layout, printer)
  {
    hide LayoutOf, Write, Writable, Tokens, TextOf, Rendered, SlotOf, InRange;
    WriteNotEmpty(layout);
    SlotsComeBack(layout);
    TextIsSubstitution(mnemonic, template, values, printer);
    assert mnemonic + (" " + Rendered(layout, printer)) == mnemonic + " " + Rendered(layout, printer);
  }

  /** One layout: the mnemonic, one space, and its texts and operands in order. */
  lemma OneForm(mnemonic: string, layout: seq<Slot>, values: seq<int>, printer: Printer)
    requires Writable(layout) && InRange(layout, |values|) && layout != []
    requires forall p: nat :: !BarAt(Write(layout), p)
    ensures TextOf(mnemonic, Write(layout), values, printer) == mnemonic + " " + Rendered(layout, printer)
  {
    hide *;
    NoForms(Write(layout), values);
    Shown(mnemonic, Write(layout), layout, values, printer);
  }

  /** Two layouts: the one behind the first bar is printed if and only if every operand that only the
      one before it prints is zero. */
  lemma TwoForms(
      mnemonic: string, long: seq<Slot>, short: seq<Slot>, values: seq<int>, printer: Printer, folds: bool)
    requires Writable(long) && InRange(long, |values|) && long != []
    requires Writable(short) && InRange(short, |values|) && short != []
    requires forall p: nat :: p < |Write(long)| ==> !BarAt(Write(long) + " | " + Write(short), p)
    requires folds <==> forall i :: 0 <= i < |values| && Names(long, i) && !Names(short, i) ==> values[i] == 0
    ensures TextOf(mnemonic, Write(long) + " | " + Write(short), values, printer) ==
            mnemonic + " " + Rendered(if folds then short else long, printer)
  {
    hide Write, Writable, InRange, BarAt, Names, HasHole, Tokens, Canonical, LayoutOf, TextOf, Rendered;
    var template := Write(long) + " | " + Write(short);
    HoleIsSlot(long);
    HoleIsSlot(short);
    ShortFormExactly(template, Write(long), Write(short), values);
    Shown(mnemonic, template, if folds then short else long, values, printer);
  }
}
