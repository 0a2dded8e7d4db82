/** Instruction text: choosing a template's form, cutting it into tokens, and rendering it. */
module Template {
  import opened Wrappers

  // ---- Strings ----

  function Find(s: string, c: char): (r: Option<nat>)
    ensures r.Some? ==> r.value < |s| && s[r.value] == c && c !in s[..r.value]
    ensures r.None? ==> c !in s
  {
    if s == "" then None
    else if s[0] == c then Some(0)
    else
      var rest := Find(s[1..], c);
      if rest.None? then None else Some(rest.value + 1)
  }

  predicate OccursAt(s: string, pattern: string, p: nat) {
    p + |pattern| <= |s| && s[p..p + |pattern|] == pattern
  }

  predicate Contains(s: string, pattern: string) {
    exists p :: 0 <= p <= |s| && OccursAt(s, pattern, p)
  }

  /** Where a pattern first occurs, from `p` on. */
  function FindFrom(s: string, pattern: string, p: nat): (r: Option<nat>)
    requires p <= |s|
    ensures r.Some? ==> p <= r.value && OccursAt(s, pattern, r.value)
    ensures r.Some? ==> forall q | p <= q < r.value :: !OccursAt(s, pattern, q)
    ensures r.None? ==> forall q | p <= q <= |s| :: !OccursAt(s, pattern, q)
    decreases |s| - p
  {
    if OccursAt(s, pattern, p) then Some(p)
    else if p == |s| then None
    else FindFrom(s, pattern, p + 1)
  }

  predicate IsDigit(c: char) { '0' <= c <= '9' }

  predicate AllDigits(s: string) { forall k :: 0 <= k < |s| ==> IsDigit(s[k]) }

  function Digit(n: nat): char
    requires n < 10
  {
    '0' + n as char
  }

  function Decimal(n: nat): (s: string)
    ensures |s| > 0 && AllDigits(s)
  {
    if n < 10 then [Digit(n)] else Decimal(n / 10) + [Digit(n % 10)]
  }

  function Number(s: string): nat
    requires AllDigits(s)
  {
    if s == "" then 0 else 10 * Number(s[..|s| - 1]) + (s[|s| - 1] - '0') as nat
  }

  lemma {:induction false} NumberOfDecimal(n: nat)
    ensures Number(Decimal(n)) == n
  {
    if n >= 10 {
      NumberOfDecimal(n / 10);
      assert Decimal(n)[..|Decimal(n)| - 1] == Decimal(n / 10);
    } else {
      assert Decimal(n)[..0] == "";
    }
  }

  /** An unsigned 64-bit decimal, with an optional plus sign. */
  function ParseUsize(s: string): Option<nat> {
    var digits := if s != "" && s[0] == '+' then s[1..] else s;
    if digits != "" && AllDigits(digits) && Number(digits) < 0x1_0000_0000_0000_0000 then Some(Number(digits)) else None
  }

  // ---- Tokens ----

  /** Literal text, or the body of a pair of braces. */
  datatype Token = Text(text: string) | Hole(body: string)

  function SourceOf(t: Token): string {
    match t
    case Text(text) => text
    case Hole(body) => "{" + body + "}"
  }

  function Source(tokens: seq<Token>): string {
    if tokens == [] then "" else SourceOf(tokens[0]) + Source(tokens[1..])
  }

  /** The first opening brace that a closing one follows: its place and the distance between them. */
  function FirstHole(s: string): (r: Option<(nat, nat)>)
    ensures r.Some? ==> r.value.1 > 0 && r.value.0 + r.value.1 < |s|
    ensures r.Some? ==> s[r.value.0] == '{' && s[r.value.0 + r.value.1] == '}'
  {
    var open := Find(s, '{');
    if open.None? then None
    else
      var close := Find(s[open.value..], '}');
      if close.None? then None else Some((open.value, close.value))
  }

  function Tokens(s: string): seq<Token>
    decreases |s|
  {
    hide Find, FirstHole;
    match FirstHole(s)
    case None => if s == "" then [] else [Text(s)]
    case Some((open, close)) =>
      (if open > 0 then [Text(s[..open])] else []) + [Hole(s[open + 1..open + close])] + Tokens(s[open + close + 1..])
  }

  lemma {:induction false} SourceAppend(a: seq<Token>, b: seq<Token>)
    ensures Source(a + b) == Source(a) + Source(b)
  {
    if a == [] {
      assert a + b == b;
    } else {
      assert (a + b)[1..] == a[1..] + b;
      SourceAppend(a[1..], b);
    }
  }

  lemma SourceOne(t: Token)
    ensures Source([t]) == SourceOf(t)
  {}

  lemma Around(s: string, open: nat, close: nat)
    requires close > 0 && open + close < |s| && s[open] == '{' && s[open + close] == '}'
    ensures s == s[..open] + ("{" + s[open + 1..open + close] + "}") + s[open + close + 1..]
  {}

  /** Tokenising loses nothing, for any template, unbalanced braces included. */
  lemma {:induction false} TokensAreLossless(s: string)
    ensures Source(Tokens(s)) == s
    decreases |s|
  {
    hide Source, FirstHole;
    SourceOne(Text(s));
    EmptySource();
    match FirstHole(s)
    case None =>
    case Some((open, close)) =>
      var head := if open > 0 then [Text(s[..open])] else [];
      var hole := Hole(s[open + 1..open + close]);
      var rest := s[open + close + 1..];
      TokensAreLossless(rest);
      SourceAppend(head + [hole], Tokens(rest));
      SourceAppend(head, [hole]);
      SourceOne(hole);
      SourceOne(Text(s[..open]));
      Around(s, open, close);
  }

  lemma EmptySource()
    ensures Source([]) == ""
  {}

  // ---- Slots ----

  /** The number and the style of a hole, cut at the first colon. */
  function NumberPart(body: string): string {
    var colon := Find(body, ':');
    if colon.Some? then body[..colon.value] else body
  }

  function StylePart(body: string): string {
    var colon := Find(body, ':');
    if colon.Some? then body[colon.value + 1..] else ""
  }

  /** What a token prints: a literal, or an operand in a style. A hole without a number prints
      as an empty literal. */
  datatype Slot = Literal(text: string) | Arg(index: nat, style: string)

  function SlotOf(t: Token): Slot {
    match t
    case Text(text) => Literal(text)
    case Hole(body) =>
      var n := ParseUsize(NumberPart(body));
      if n.Some? then Arg(n.value, StylePart(body)) else Literal("")
  }

  function SlotsOf(tokens: seq<Token>): (r: seq<Slot>)
    ensures |r| == |tokens| && forall k :: 0 <= k < |r| ==> r[k] == SlotOf(tokens[k])
  {
    seq(|tokens|, k requires 0 <= k < |tokens| => SlotOf(tokens[k]))
  }

  /** Without a layout: every operand, separated by commas. */
  function PlainSlots(n: nat): seq<Slot> {
    if n == 0 then []
    else if n == 1 then [Arg(0, "")]
    else PlainSlots(n - 1) + [Literal(", "), Arg(n - 1, "")]
  }

  lemma SlotsAppend(tokens: seq<Token>, t: Token)
    ensures SlotsOf(tokens + [t]) == SlotsOf(tokens) + [SlotOf(t)]
  {
    hide SlotOf;
  }

  lemma Regroup(done: seq<Token>, head: seq<Token>, hole: Token, tail: seq<Token>)
    ensures done + (head + [hole] + tail) == done + head + [hole] + tail
  {}

  /** Tokens up to and with the first hole, and those after it. */
  lemma TokensStep(s: string, open: nat, close: nat)
    requires FirstHole(s) == Some((open, close))
    ensures Tokens(s) == (if open > 0 then [Text(s[..open])] else []) + [Hole(s[open + 1..open + close])]
                         + Tokens(s[open + close + 1..])
  {
    hide FirstHole;
  }

  lemma TokensEnd(s: string)
    requires FirstHole(s).None?
    ensures Tokens(s) == if s == "" then [] else [Text(s)]
  {
    hide FirstHole;
  }

  /** The two searches of the loop find the first hole. */
  lemma HoleFound(s: string)
    ensures FirstHole(s) ==
            var open := Find(s, '{');
            if open.None? then None
            else
              var close := Find(s[open.value..], '}');
              if close.None? then None else Some((open.value, close.value))
  {
    hide Find;
  }

  /** One hole further: the tokens done, the slots for them, and what is left. */
  lemma TokeniseStep(done: seq<Token>, rest: string, open: nat, close: nat) returns (more: seq<Token>)
    requires FirstHole(rest) == Some((open, close))
    ensures more + Tokens(rest[open + close + 1..]) == done + Tokens(rest)
    ensures SlotsOf(more) == SlotsOf(done) + (if open > 0 then [SlotOf(Text(rest[..open]))] else [])
                             + [SlotOf(Hole(rest[open + 1..open + close]))]
  {
    hide SlotOf, FirstHole, Tokens, SlotsOf;
    TokensStep(rest, open, close);
    var head := if open > 0 then [Text(rest[..open])] else [];
    var hole := Hole(rest[open + 1..open + close]);
    Regroup(done, head, hole, Tokens(rest[open + close + 1..]));
    if open > 0 { SlotsAppend(done, Text(rest[..open])); }
    assert head == [] ==> done + head == done;
    SlotsAppend(done + head, hole);
    more := done + head + [hole];
  }

  /** The tokenising loop. */
  method Tokenise(layout: string) returns (slots: seq<Slot>)
    ensures slots == SlotsOf(Tokens(layout))
  {
    hide *;
    slots := [];
    ghost var done: seq<Token> := [];
    var rest := layout;
    NoSlots();
    while true
      invariant done + Tokens(rest) == Tokens(layout) && slots == SlotsOf(done)
      decreases |rest|
    {
      HoleFound(rest);
      var open := Find(rest, '{');
      if open.None? {
        break;
      }
      var close := Find(rest[open.value..], '}');
      if close.None? {
        break;
      }
      done := TokeniseStep(done, rest, open.value, close.value);
      var body := rest[open.value + 1..open.value + close.value];
      if open.value > 0 {
        slots := slots + [SlotOf(Text(rest[..open.value]))];
      }
      slots := slots + [SlotOf(Hole(body))];
      rest := rest[open.value + close.value + 1..];
    }
    TokensEnd(rest);
    if rest != "" {
      SlotsAppend(done, Text(rest));
      slots := slots + [SlotOf(Text(rest))];
    }
  }

  lemma NoSlots()
    ensures SlotsOf([]) == []
  {}

  // ---- Rendering ----

  /** Text of one operand in a style; how an operand is printed is not modelled. */
  type Printer = (nat, string) -> string

  function Concat(texts: seq<string>): string {
    if texts == [] then "" else Concat(texts[..|texts| - 1]) + texts[|texts| - 1]
  }

  function Printed(slot: Slot, printer: Printer): string {
    match slot
    case Literal(text) => text
    case Arg(index, style) => printer(index, style)
  }

  /** The slots printed one after the other. */
  function Rendered(slots: seq<Slot>, printer: Printer): string {
    if slots == [] then "" else Rendered(slots[..|slots| - 1], printer) + Printed(slots[|slots| - 1], printer)
  }

  predicate InRange(slots: seq<Slot>, operands: nat) {
    forall k :: 0 <= k < |slots| && slots[k].Arg? ==> slots[k].index < operands
  }

  /** The text after the mnemonic, and whether nothing was printed yet: a space goes before the
      first piece, and operands that do not exist are left out. */
  function Line(slots: seq<Slot>, operands: nat, printer: Printer): (string, bool) {
    if slots == [] then ("", true)
    else
      var (before, first) := Line(slots[..|slots| - 1], operands, printer);
      var slot := slots[|slots| - 1];
      if slot.Arg? && slot.index >= operands then (before, first)
      else (before + (if first then " " else "") + Printed(slot, printer), false)
  }

  lemma LineNext(slots: seq<Slot>, i: nat, operands: nat, printer: Printer)
    requires i < |slots|
    ensures Line(slots[..i + 1], operands, printer) ==
            var (before, first) := Line(slots[..i], operands, printer);
            if slots[i].Arg? && slots[i].index >= operands then (before, first)
            else (before + (if first then " " else "") + Printed(slots[i], printer), false)
  {
    hide Printed;
    assert slots[..i + 1][..i] == slots[..i];
  }

  /** The rendering loop. */
  method Pieces(mnemonic: string, slots: seq<Slot>, operands: nat, printer: Printer) returns (out: seq<string>)
    ensures Concat(out) == mnemonic + Line(slots, operands, printer).0
  {
    hide Line, Concat;
    out := [mnemonic];
    var first := true;
    Start(mnemonic, slots, operands, printer);
    for i := 0 to |slots|
      invariant Concat(out) == mnemonic + Line(slots[..i], operands, printer).0
      invariant first == Line(slots[..i], operands, printer).1
    {
      LineNext(slots, i, operands, printer);
      ghost var before := Line(slots[..i], operands, printer).0;
      if slots[i].Literal? {
        var text := if first then " " + slots[i].text else slots[i].text;
        ConcatOne(out, text);
        Associates(mnemonic, before, if first then " " else "", slots[i].text);
        out := out + [text];
        first := false;
      } else if slots[i].index < operands {
        var text := printer(slots[i].index, slots[i].style);
        Associates(mnemonic, before, if first then " " else "", text);
        if first {
          ConcatOne(out, " ");
          out := out + [" "];
          first := false;
        }
        ConcatOne(out, text);
        out := out + [text];
      }
    }
    assert slots[..|slots|] == slots;
  }

  lemma Start(mnemonic: string, slots: seq<Slot>, operands: nat, printer: Printer)
    ensures Concat([mnemonic]) == mnemonic + Line(slots[..0], operands, printer).0
    ensures Line(slots[..0], operands, printer).1
  {
    assert [mnemonic][..0] == [];
  }

  lemma Associates(a: string, b: string, c: string, d: string)
    ensures (a + b) + (c + d) == a + (b + c + d)
    ensures (a + b) + c + d == a + (b + c + d)
    ensures a + b + "" + d == a + (b + "" + d) && "" + d == d && a + b + d == a + (b + "" + d)
  {}

  lemma ConcatOne(texts: seq<string>, text: string)
    ensures Concat(texts + [text]) == Concat(texts) + text
  {
    assert (texts + [text])[..|texts|] == texts;
  }

  /** The slots without those of operands that are not there. */
  function Present(slots: seq<Slot>, operands: nat): (there: seq<Slot>)
    ensures InRange(slots, operands) ==> there == slots
    ensures InRange(there, operands) && |there| <= |slots|
  {
    if slots == [] then []
    else
      var n := |slots| - 1;
      assert slots == slots[..n] + [slots[n]];
      assert InRange(slots, operands) ==> InRange(slots[..n], operands);
      Present(slots[..n], operands) + (if slots[n].Arg? && slots[n].index >= operands then [] else [slots[n]])
  }

  lemma PresentNext(slots: seq<Slot>, operands: nat)
    requires slots != []
    ensures var n := |slots| - 1;
      Present(slots, operands) ==
      Present(slots[..n], operands) + (if slots[n].Arg? && slots[n].index >= operands then [] else [slots[n]])
  {
    hide InRange;
  }

  /** The slots in order, those of missing operands left out. */
  lemma {:induction false} LineIsRendered(slots: seq<Slot>, operands: nat, printer: Printer)
    ensures var there := Present(slots, operands);
      Line(slots, operands, printer) == if there == [] then ("", true) else (" " + Rendered(there, printer), false)
  {
    hide Printed, InRange, Line, Rendered, Present;
    var n := |slots| - 1;
    if slots == [] {
      assert slots[..0] == [];
      NothingPrinted(operands, printer);
    } else {
      LineIsRendered(slots[..n], operands, printer);
      PresentNext(slots, operands);
      LineNext(slots, n, operands, printer);
      assert slots[..n + 1] == slots;
      var before := Present(slots[..n], operands);
      if !(slots[n].Arg? && slots[n].index >= operands) {
        RenderNext(before, slots[n], printer);
        NothingPrinted(operands, printer);
        Spaced(Rendered(before, printer), Printed(slots[n], printer));
      } else {
        assert before + [] == before;
      }
    }
  }

  lemma NothingPrinted(operands: nat, printer: Printer)
    ensures Present([], operands) == [] && Line([], operands, printer) == ("", true) && Rendered([], printer) == ""
  {}

  lemma Spaced(text: string, last: string)
    ensures " " + text + "" + last == " " + (text + last)
    ensures "" + " " + last == " " + ("" + last)
  {}

  lemma RenderNext(slots: seq<Slot>, slot: Slot, printer: Printer)
    ensures Rendered(slots + [slot], printer) == Rendered(slots, printer) + Printed(slot, printer)
  {
    hide Printed;
    assert (slots + [slot])[..|slots|] == slots;
  }

  // ---- The form of a template ----

  predicate Mentions(template: string, i: nat) {
    Contains(template, "{" + Decimal(i) + "}") || Contains(template, "{" + Decimal(i) + ":")
  }

  const BAR: string := " | "

  /** The two forms around the first bar. */
  function Forms(template: string): Option<(string, string)> {
    var bar := FindFrom(template, BAR, 0);
    if bar.None? then None else Some((template[..bar.value], template[bar.value + 3..]))
  }

  /** The short form wins when every operand it drops is zero. */
  function LayoutOf(template: string, values: seq<int>): string {
    var forms := Forms(template);
    if forms.None? then template
    else
      var (long, short) := forms.value;
      var folds := forall i :: 0 <= i < |values| ==> values[i] == 0 || !Mentions(long, i) || Mentions(short, i);
      if folds then short else long
  }

  /** The whole line. */
  method RenderText(mnemonic: string, template: string, values: seq<int>, printer: Printer) returns (line: string)
    ensures line == TextOf(mnemonic, template, values, printer)
  {
    hide Line, Tokens, LayoutOf;
    var layout := LayoutOf(template, values);
    var slots := PlainSlots(|values|);
    if layout != "" {
      slots := Tokenise(layout);
    }
    var out := Pieces(mnemonic, slots, |values|, printer);
    line := Concat(out);
  }

  function Layout(layout: string, n: nat): seq<Slot> {
    if layout == "" then PlainSlots(n) else SlotsOf(Tokens(layout))
  }

  function TextOf(mnemonic: string, template: string, values: seq<int>, printer: Printer): string {
    mnemonic + Line(Layout(LayoutOf(template, values), |values|), |values|, printer).0
  }

  /** For any layout, the line is the mnemonic, one space, and the layout with every hole replaced
      by its operand's text, or by nothing when there is no such operand. */
  lemma TextIsSubstitution(mnemonic: string, template: string, values: seq<int>, printer: Printer)
    requires LayoutOf(template, values) != ""
    ensures var there := Present(SlotsOf(Tokens(LayoutOf(template, values))), |values|);
      TextOf(mnemonic, template, values, printer) ==
      mnemonic + (if there == [] then "" else " " + Rendered(there, printer))
  {
    hide LayoutOf, Line, Rendered, SlotOf, Present;
    LineIsRendered(SlotsOf(Tokens(LayoutOf(template, values))), |values|, printer);
  }

  /** Every operand in its plain style, separated by commas. */
  function Listed(n: nat, printer: Printer): string {
    if n == 0 then ""
    else if n == 1 then printer(0, "")
    else Listed(n - 1, printer) + ", " + printer(n - 1, "")
  }

  lemma {:induction false} PlainSlotsRender(n: nat, printer: Printer)
    ensures InRange(PlainSlots(n), n) && (PlainSlots(n) == [] <==> n == 0)
    ensures Rendered(PlainSlots(n), printer) == Listed(n, printer)
  {
    if n > 1 {
      PlainSlotsRender(n - 1, printer);
      var before := PlainSlots(n - 1);
      RenderNext(before, Literal(", "), printer);
      RenderNext(before + [Literal(", ")], Arg(n - 1, ""), printer);
      assert PlainSlots(n) == before + [Literal(", ")] + [Arg(n - 1, "")];
    } else if n == 1 {
      RenderNext([], Arg(0, ""), printer);
      assert [] + [Arg(0, "")] == PlainSlots(1);
    }
  }

  /** Without a layout: the mnemonic alone, or the operands behind it. */
  lemma EmptyLayoutLists(mnemonic: string, template: string, values: seq<int>, printer: Printer)
    requires LayoutOf(template, values) == ""
    ensures TextOf(mnemonic, template, values, printer) ==
            mnemonic + (if values == [] then "" else " " + Listed(|values|, printer))
  {
    hide LayoutOf, Line, Rendered, PlainSlots, Listed, InRange;
    PlainSlotsRender(|values|, printer);
    LineIsRendered(PlainSlots(|values|), |values|, printer);
  }

  // ---- Mentioning an operand ----

  /** Holes that are plain decimal numbers, styled or not, and no stray brace. */
  ghost predicate Canonical(tokens: seq<Token>) {
    forall k :: 0 <= k < |tokens| ==> CanonicalToken(tokens[k])
  }

  ghost predicate CanonicalToken(t: Token) {
    match t
    case Text(text) => '{' !in text
    case Hole(body) => '{' !in body && exists j: nat :: NumberPart(body) == Decimal(j)
  }

  predicate IsHoleOf(t: Token, i: nat) { t.Hole? && NumberPart(t.body) == Decimal(i) }

  predicate HasHole(tokens: seq<Token>, i: nat) {
    exists k :: 0 <= k < |tokens| && IsHoleOf(tokens[k], i)
  }

  /** A number part is digits, and what follows it in the source is a colon or the brace. */
  lemma AfterNumber(body: string, tail: string)
    ensures var n := NumberPart(body); var s := body + "}" + tail;
      && |n| <= |body| && s[..|n|] == n
      && s[|n|] == (if n == body then '}' else ':')
  {
    var n := NumberPart(body);
    if n == body { assert (body + "}" + tail)[|body|] == '}'; }
  }

  /** Two digit strings, each followed by something else at the start of one string, are one. */
  lemma SameNumber(s: string, a: string, b: string)
    requires AllDigits(a) && AllDigits(b) && |a| < |s| && |b| < |s|
    requires s[..|a|] == a && s[..|b|] == b && !IsDigit(s[|a|]) && !IsDigit(s[|b|])
    ensures a == b
  {
    assert forall k :: 0 <= k < |a| ==> IsDigit(s[k]) by { assert forall k :: 0 <= k < |a| ==> s[k] == a[k]; }
    assert forall k :: 0 <= k < |b| ==> IsDigit(s[k]) by { assert forall k :: 0 <= k < |b| ==> s[k] == b[k]; }
    if |a| < |b| { assert false; }
    if |b| < |a| { assert false; }
  }

  /** The pattern at a hole names that hole's operand. */
  lemma PatternAtHole(body: string, tail: string, i: nat, end: char)
    requires end == '}' || end == ':'
    requires exists j: nat :: NumberPart(body) == Decimal(j)
    requires OccursAt("{" + body + "}" + tail, "{" + Decimal(i) + [end], 0)
    ensures NumberPart(body) == Decimal(i)
  {
    hide NumberPart, Decimal;
    var d := Decimal(i);
    var s := body + "}" + tail;
    var pattern := "{" + d + [end];
    assert "{" + body + "}" + tail == "{" + s;
    assert ("{" + s)[..|pattern|] == pattern;
    forall k | 0 <= k <= |d| ensures s[k] == pattern[k + 1] { assert ("{" + s)[k + 1] == s[k]; }
    forall k | 0 <= k < |d| ensures s[k] == d[k] { assert pattern[k + 1] == d[k]; }
    assert s[|d|] == pattern[|d| + 1] == end;
    assert s[..|d|] == d;
    AfterNumber(body, tail);
    SameNumber(s, NumberPart(body), d);
  }

  lemma Part(s: string, head: string, rest: string, pattern: string, p: nat)
    requires s == head + rest && OccursAt(s, pattern, p) && pattern != ""
    ensures p >= |head| ==> OccursAt(rest, pattern, p - |head|)
    ensures p < |head| ==> head[p] == pattern[0]
  {
    assert s[p..p + |pattern|][0] == s[p];
    if p >= |head| { assert s[p..p + |pattern|] == rest[p - |head|..p - |head| + |pattern|]; }
  }

  lemma CanonicalTail(tokens: seq<Token>)
    requires Canonical(tokens) && tokens != []
    ensures CanonicalToken(tokens[0]) && Canonical(tokens[1..])
  {
    hide CanonicalToken;
  }

  lemma HasHoleTail(tokens: seq<Token>, i: nat)
    requires tokens != [] && HasHole(tokens[1..], i)
    ensures HasHole(tokens, i)
  {
    hide IsHoleOf;
    var k :| 0 <= k < |tokens[1..]| && IsHoleOf(tokens[1..][k], i);
    assert tokens[1..][k] == tokens[k + 1];
  }

  lemma AtFirst(tokens: seq<Token>, i: nat, end: char)
    requires tokens != [] && tokens[0].Hole? && CanonicalToken(tokens[0]) && (end == '}' || end == ':')
    requires OccursAt(Source(tokens), "{" + Decimal(i) + [end], 0)
    ensures HasHole(tokens, i)
  {
    hide Decimal, NumberPart, OccursAt;
    PatternAtHole(tokens[0].body, Source(tokens[1..]), i, end);
    assert IsHoleOf(tokens[0], i);
  }

  /** An opening brace in the source opens a hole. */
  lemma {:induction false} OccursAtHole(tokens: seq<Token>, i: nat, end: char, p: nat)
    requires Canonical(tokens) && (end == '}' || end == ':')
    requires OccursAt(Source(tokens), "{" + Decimal(i) + [end], p)
    ensures HasHole(tokens, i)
  {
    hide Decimal, NumberPart, Canonical, CanonicalToken, HasHole, SourceOf;
    if tokens == [] {
      assert false;
    } else {
      var head := SourceOf(tokens[0]);
      CanonicalTail(tokens);
      Part(Source(tokens), head, Source(tokens[1..]), "{" + Decimal(i) + [end], p);
      if p >= |head| {
        OccursAtHole(tokens[1..], i, end, p - |head|);
        HasHoleTail(tokens, i);
      } else {
        BraceOpens(tokens[0], p);
        AtFirst(tokens, i, end);
      }
    }
  }

  lemma BraceOpens(t: Token, p: nat)
    requires CanonicalToken(t) && p < |SourceOf(t)| && SourceOf(t)[p] == '{'
    ensures t.Hole? && p == 0
  {
    if t.Hole? {
      assert forall k :: 0 < k <= |t.body| ==> SourceOf(t)[k] == t.body[k - 1];
    }
  }

  /** Every hole is found by looking for its number between braces or before a colon. */
  lemma {:induction false} HoleOccurs(tokens: seq<Token>, k: nat, i: nat)
    requires k < |tokens| && IsHoleOf(tokens[k], i)
    ensures Mentions(Source(tokens), i)
  {
    hide Decimal, NumberPart;
    var head, rest := SourceOf(tokens[0]), Source(tokens[1..]);
    if k > 0 {
      HoleOccurs(tokens[1..], k - 1, i);
      if Contains(rest, "{" + Decimal(i) + "}") {
        Shifted(head, rest, "{" + Decimal(i) + "}");
      } else {
        Shifted(head, rest, "{" + Decimal(i) + ":");
      }
    } else {
      FirstHoleOccurs(tokens, i);
    }
  }

  lemma FirstHoleOccurs(tokens: seq<Token>, i: nat)
    requires tokens != [] && IsHoleOf(tokens[0], i)
    ensures Mentions(Source(tokens), i)
  {
    hide Decimal, NumberPart;
    var rest := Source(tokens[1..]);
    var s := SourceOf(tokens[0]) + rest;
    var body := tokens[0].body;
    var d := Decimal(i);
    AfterNumber(body, rest);
    var t := body + "}" + rest;
    assert s == "{" + t;
    var end := t[|d|];
    assert s[0..0 + |d| + 2] == "{" + d + [end];
    assert OccursAt(s, "{" + d + [end], 0);
  }

  lemma Shifted(head: string, rest: string, pattern: string)
    requires Contains(rest, pattern)
    ensures Contains(head + rest, pattern)
  {
    var p :| 0 <= p <= |rest| && OccursAt(rest, pattern, p);
    assert (head + rest)[|head| + p..|head| + p + |pattern|] == rest[p..p + |pattern|];
    assert OccursAt(head + rest, pattern, |head| + p);
  }

  /** Looking for `{i}` or `{i:` finds exactly the templates with a hole for operand `i`. */
  lemma MentionsIsHole(template: string, i: nat)
    requires Canonical(Tokens(template))
    ensures Mentions(template, i) <==> HasHole(Tokens(template), i)
  {
    hide Decimal, NumberPart, Tokens, Source, OccursAt;
    TokensAreLossless(template);
    var tokens := Tokens(template);
    if Mentions(template, i) {
      if Contains(template, "{" + Decimal(i) + "}") {
        var p :| 0 <= p <= |template| && OccursAt(template, "{" + Decimal(i) + "}", p);
        OccursAtHole(tokens, i, '}', p);
      } else {
        var p :| 0 <= p <= |template| && OccursAt(template, "{" + Decimal(i) + ":", p);
        OccursAtHole(tokens, i, ':', p);
      }
    }
    if k :| 0 <= k < |tokens| && IsHoleOf(tokens[k], i) { HoleOccurs(tokens, k, i); }
  }

  /** An operand the long form prints and the short one does not. */
  predicate Dropped(long: string, short: string, i: nat) {
    HasHole(Tokens(long), i) && !HasHole(Tokens(short), i)
  }

  // ---- The two forms of a template ----

  /** A bar stands at `p`. */
  predicate BarAt(template: string, p: nat) {
    p + 3 <= |template| && template[p] == ' ' && template[p + 1] == '|' && template[p + 2] == ' '
  }

  /** `long` stands before the first bar of the template and `short` behind it. */
  ghost predicate SplitsInto(template: string, long: string, short: string) {
    && template == long + " | " + short
    && forall p: nat :: p < |long| ==> !BarAt(template, p)
  }

  lemma BarOccurs(template: string, p: nat)
    ensures OccursAt(template, BAR, p) <==> BarAt(template, p)
  {
    if p + 3 <= |template| {
      assert template[p..p + 3] == [template[p], template[p + 1], template[p + 2]];
      assert BAR == [' ', '|', ' '];
    }
  }

  /** The bar found is the first one. */
  lemma FirstBar(template: string)
    ensures var bar := FindFrom(template, BAR, 0);
      && (bar.Some? ==> BarAt(template, bar.value) && forall p: nat :: p < bar.value ==> !BarAt(template, p))
      && (bar.None? ==> forall p: nat :: !BarAt(template, p))
  {
    hide OccursAt, BarAt;
    var bar := FindFrom(template, BAR, 0);
    if bar.Some? { BarOccurs(template, bar.value); }
    forall p: nat | p < if bar.Some? then bar.value else |template| ensures !BarAt(template, p) {
      BarOccurs(template, p);
    }
    if bar.None? {
      forall p: nat | p >= |template| ensures !BarAt(template, p) { NoBarBehind(template, p); }
    }
  }

  lemma NoBarBehind(template: string, p: nat)
    requires p >= |template|
    ensures !BarAt(template, p)
  {}

  /** The two forms are what stands before and behind the first bar. */
  lemma FormsExactly(template: string, long: string, short: string)
    ensures Forms(template) == Some((long, short)) <==> SplitsInto(template, long, short)
  {
    hide FindFrom;
    FirstBar(template);
    var bar := FindFrom(template, BAR, 0);
    if Forms(template) == Some((long, short)) {
      assert template == template[..bar.value] + " | " + template[bar.value + 3..];
    }
    if SplitsInto(template, long, short) {
      assert BarAt(template, |long|);
      assert bar == Some(|long|);
      assert template[..|long|] == long && template[|long| + 3..] == short;
    }
  }

  /** Without a bar the template is its own layout. */
  lemma NoForms(template: string, values: seq<int>)
    ensures Forms(template) == None <==> forall p: nat :: !BarAt(template, p)
    ensures (forall p: nat :: !BarAt(template, p)) ==> LayoutOf(template, values) == template
  {
    hide FindFrom, Mentions;
    FirstBar(template);
  }

  /** The short form is chosen exactly when every operand it drops is zero. */
  lemma {:induction false} ShortFormExactly(template: string, long: string, short: string, values: seq<int>)
    requires SplitsInto(template, long, short) && Canonical(Tokens(long)) && Canonical(Tokens(short))
    ensures LayoutOf(template, values) ==
            if forall i :: 0 <= i < |values| && Dropped(long, short, i) ==> values[i] == 0 then short else long
  {
    hide Mentions, Forms, Tokens, HasHole, SplitsInto;
    FormsExactly(template, long, short);
    forall i: nat | i < |values|
      ensures Mentions(long, i) == HasHole(Tokens(long), i) && Mentions(short, i) == HasHole(Tokens(short), i)
    {
      MentionsIsHole(long, i);
      MentionsIsHole(short, i);
    }
  }
}
