/** The line editor for secrets: cursor, selection, a byte limit, and buffers that are
    overwritten with zeros before they are dropped. */
module SecretEditor {
  import opened Outcomes

  const MAX_SECRET_BYTES := 4096

  /** A Unicode scalar value. */
  type Rune = x: int | 0 <= x < 0xD800 || 0xE000 <= x < 0x11_0000

  type Byte = x: int | 0 <= x < 256

  datatype Status = Clear | ControlError | LimitError | Help

  // ------------------------------------------------------------------------ UTF-8

  function RuneLen(r: Rune): nat {
    if r < 0x80 then 1 else if r < 0x800 then 2 else if r < 0x1_0000 then 3 else 4
  }

  function ByteLen(s: seq<Rune>): nat {
    if s == [] then 0 else ByteLen(s[..|s| - 1]) + RuneLen(s[|s| - 1])
  }

  function EncodeRune(r: Rune): (b: seq<Byte>)
    ensures |b| == RuneLen(r)
  {
    if r < 0x80 then [r]
    else if r < 0x800 then [0xC0 + r / 64, 0x80 + r % 64]
    else if r < 0x1_0000 then [0xE0 + r / 4096, 0x80 + r / 64 % 64, 0x80 + r % 64]
    else [0xF0 + r / 0x4_0000, 0x80 + r / 4096 % 64, 0x80 + r / 64 % 64, 0x80 + r % 64]
  }

  function Encode(s: seq<Rune>): seq<Byte> {
    if s == [] then [] else Encode(s[..|s| - 1]) + EncodeRune(s[|s| - 1])
  }

  lemma {:induction false} EncodedLength(s: seq<Rune>)
    ensures |Encode(s)| == ByteLen(s)
  {
    if s != [] { EncodedLength(s[..|s| - 1]); }
  }

  lemma {:induction false} ByteLenAppend(s: seq<Rune>, t: seq<Rune>)
    ensures ByteLen(s + t) == ByteLen(s) + ByteLen(t)
  {
    if t == [] {
      assert s + t == s;
    } else {
      assert (s + t)[..|s + t| - 1] == s + t[..|t| - 1];
      ByteLenAppend(s, t[..|t| - 1]);
    }
  }

  /** Section 3 of RFC 3629 read from left to right: how many bytes a leading byte
      announces, 0 where no character starts. */
  function Announced(lead: Byte): nat {
    if lead < 0x80 then 1
    else if lead < 0xC0 then 0
    else if lead < 0xE0 then 2
    else if lead < 0xF0 then 3
    else if lead < 0xF8 then 4
    else 0
  }

  predicate Continues(b: Byte) {
    0x80 <= b < 0xC0
  }

  /** The six bits of a continuation byte behind the bits so far. */
  function Then(bits: nat, b: Byte): nat {
    bits * 64 + b as int % 64
  }

  function Bits(b: seq<Byte>): nat
    requires b != [] && |b| == Announced(b[0])
  {
    var lead := b[0] as int;
    match |b|
    case 1 => lead
    case 2 => Then(lead % 0x20, b[1])
    case 3 => Then(Then(lead % 0x10, b[1]), b[2])
    case _ => Then(Then(Then(lead % 8, b[1]), b[2]), b[3])
  }

  /** One character: neither written longer than it has to be, nor half of a surrogate
      pair, nor beyond the last character. */
  function Character(b: seq<Byte>): Option<Rune>
    requires b != [] && |b| == Announced(b[0])
  {
    if exists i | 0 < i < |b| :: !Continues(b[i]) then None
    else
      var bits, least := Bits(b), match |b| case 1 => 0 case 2 => 0x80 case 3 => 0x800 case _ => 0x1_0000;
      if bits < least || 0xD800 <= bits < 0xE000 || 0x11_0000 <= bits then None else Some(bits)
  }

  /** The text of a byte string, if it is well formed. */
  function Decode(b: seq<Byte>): Option<seq<Rune>>
    decreases |b|
  {
    if b == [] then Some([])
    else
      var n := Announced(b[0]);
      if n == 0 || |b| < n then None
      else
        match (Character(b[..n]), Decode(b[n..]))
        case (Some(r), Some(s)) => Some([r] + s)
        case _ => None
  }

  /** Encoding is what decoding undoes, and the only thing. */
  lemma EncodesExactly(s: seq<Rune>, b: seq<Byte>)
    ensures b == Encode(s) <==> Decode(b) == Some(s)
  {
    DecodeEncoded(s);
    if Decode(b).Some? { EncodeDecoded(b); }
  }

  /** Different texts are never encoded alike. */
  lemma EncodeInjective(s: seq<Rune>, t: seq<Rune>)
    requires Encode(s) == Encode(t)
    ensures s == t
  {
    DecodeEncoded(s);
    DecodeEncoded(t);
  }

  /** Text of one-byte characters is its own encoding. */
  lemma {:induction false} PlainTextIsItself(s: seq<Rune>)
    requires forall i | 0 <= i < |s| :: s[i] < 0x80
    ensures |Encode(s)| == |s|
    ensures forall i | 0 <= i < |s| :: Encode(s)[i] == s[i]
  {
    if s != [] {
      PlainTextIsItself(s[..|s| - 1]);
    }
  }

  lemma {:induction false} DecodeEncoded(s: seq<Rune>)
    ensures Decode(Encode(s)) == Some(s)
  {
    hide Character, Announced;
    if s != [] {
      EncodePrepend(s[0], s[1..]);
      DecodeEncoded(s[1..]);
      CharacterOf(s[0]);
      assert s == [s[0]] + s[1..];
      var e, b := EncodeRune(s[0]), Encode(s);
      assert b == e + Encode(s[1..]) && b[0] == e[0] && b[..|e|] == e && b[|e|..] == Encode(s[1..]);
    }
  }

  lemma {:induction false} EncodeDecoded(b: seq<Byte>)
    requires Decode(b).Some?
    ensures Encode(Decode(b).value) == b
    decreases |b|
  {
    hide Character, EncodeRune, Announced;
    if b != [] {
      var n := Announced(b[0]);
      EncodeDecoded(b[n..]);
      OfCharacter(b[..n]);
      EncodePrepend(Character(b[..n]).value, Decode(b[n..]).value);
      assert b == b[..n] + b[n..];
    }
  }

  lemma {:induction false} EncodePrepend(r: Rune, s: seq<Rune>)
    ensures Encode([r] + s) == EncodeRune(r) + Encode(s)
  {
    hide EncodeRune;
    if s == [] {
      assert [r] + s == [r] && [r][..0] == [];
    } else {
      assert ([r] + s)[..|s|] == [r] + s[..|s| - 1];
      EncodePrepend(r, s[..|s| - 1]);
    }
  }

  lemma CharacterOf(r: Rune)
    ensures var b := EncodeRune(r);
      b != [] && Announced(b[0]) == |b| && Character(b) == Some(r)
  {
    var b := EncodeRune(r);
    assert Announced(b[0]) == |b| && forall i | 0 < i < |b| :: Continues(b[i]);
    BitsOf(r);
  }

  lemma BitsOf(r: Rune)
    ensures var b := EncodeRune(r);
      b != [] && Announced(b[0]) == |b| && Bits(b) == r
  {
    hide Then;
    Refill(r);
  }

  /** A number is refilled from its leading bits and the six bits of each byte behind. */
  lemma Refill(n: nat)
    requires n < 0x11_0000
    ensures 0x80 <= n < 0x800 ==> Then((0xC0 + n / 64) % 0x20, 0x80 + n % 64) == n
    ensures 0x800 <= n < 0x1_0000 ==> Then(Then((0xE0 + n / 4096) % 0x10, 0x80 + n / 64 % 64), 0x80 + n % 64) == n
    ensures 0x1_0000 <= n ==>
      Then(Then(Then((0xF0 + n / 0x4_0000) % 8, 0x80 + n / 4096 % 64), 0x80 + n / 64 % 64), 0x80 + n % 64) == n
  {
    hide Then;
    Quotients(n);
    ThenJoins(n);
    ThenJoins(n / 64);
    ThenJoins(n / 64 / 64);
    Leads(n);
  }

  lemma Leads(n: nat)
    ensures n < 0x800 ==> (0xC0 + n / 64) % 0x20 == n / 64
    ensures n < 0x1_0000 ==> (0xE0 + n / 4096) % 0x10 == n / 4096
    ensures n < 0x11_0000 ==> (0xF0 + n / 0x4_0000) % 8 == n / 0x4_0000
  {
  }

  lemma ThenJoins(n: nat)
    ensures Then(n / 64, 0x80 + n % 64) == n
  {
  }

  lemma OfCharacter(b: seq<Byte>)
    requires b != [] && |b| == Announced(b[0]) && Character(b).Some?
    ensures EncodeRune(Character(b).value) == b
  {
    assert forall i | 0 < i < |b| :: Continues(b[i]);
    OfBits(b);
  }

  lemma OfBits(b: seq<Byte>)
    requires b != [] && |b| == Announced(b[0]) && Character(b).Some?
    requires forall i | 0 < i < |b| :: Continues(b[i])
    ensures EncodeRune(Bits(b)) == b
  {
    hide EncodeRune, Then;
    if |b| == 1 {
      OfOne(b);
    } else if |b| == 2 {
      OfTwo(b, Bits(b));
    } else if |b| == 3 {
      OfThree(b, Bits(b));
    } else {
      OfFour(b, Bits(b));
    }
  }

  lemma OfOne(b: seq<Byte>)
    requires |b| == 1 && b[0] < 0x80
    ensures EncodeRune(b[0]) == b
  {
  }

  lemma OfTwo(b: seq<Byte>, r: Rune)
    requires |b| == 2 && Announced(b[0]) == 2 && Continues(b[1])
    requires r == Then(b[0] as int % 0x20, b[1]) >= 0x80
    ensures EncodeRune(r) == b
  {
    hide Then;
    ThenSplits(b[0] as int % 0x20, b[1]);
  }

  lemma OfThree(b: seq<Byte>, r: Rune)
    requires |b| == 3 && Announced(b[0]) == 3 && Continues(b[1]) && Continues(b[2])
    requires r == Then(Then(b[0] as int % 0x10, b[1]), b[2]) >= 0x800
    ensures EncodeRune(r) == b
  {
    hide Then;
    Split(b[0] as int % 0x10, b[1], b[2]);
  }

  lemma OfFour(b: seq<Byte>, r: Rune)
    requires |b| == 4 && Announced(b[0]) == 4 && Continues(b[1]) && Continues(b[2]) && Continues(b[3])
    requires r == Then(Then(Then(b[0] as int % 8, b[1]), b[2]), b[3]) >= 0x1_0000
    ensures EncodeRune(r) == b
  {
    hide *;
    SplitLast(b[0] as int % 8, b[1], b[2], b[3]);
    FourBytes(r);
    LeadOfFour(b[0]);
    LowBits(b[1]);
    LowBits(b[2]);
    LowBits(b[3]);
  }

  lemma LeadOfFour(lead: Byte)
    requires Announced(lead) == 4
    ensures lead as int == 0xF0 + lead as int % 8
  {
  }

  lemma FourBytes(r: Rune)
    requires r >= 0x1_0000
    ensures |EncodeRune(r)| == 4
    ensures EncodeRune(r)[0] as int == 0xF0 + r as int / 0x4_0000
    ensures EncodeRune(r)[1] as int == 0x80 + r as int / 4096 % 64
    ensures EncodeRune(r)[2] as int == 0x80 + r as int / 64 % 64
    ensures EncodeRune(r)[3] as int == 0x80 + r as int % 64
  {
  }

  lemma LowBits(b: Byte)
    requires Continues(b)
    ensures b as int == 0x80 + b as int % 64
  {
  }

  lemma Split(bits: nat, b: Byte, c: Byte)
    ensures var n := Then(Then(bits, b), c);
      n / 4096 == bits && n / 64 % 64 == b as int % 64 && n % 64 == c as int % 64
  {
    hide Then;
    Quotients(Then(Then(bits, b), c));
    ThenSplits(bits, b);
    ThenSplits(Then(bits, b), c);
  }

  lemma SplitLast(bits: nat, b: Byte, c: Byte, d: Byte)
    ensures var n := Then(Then(Then(bits, b), c), d);
      && n / 0x4_0000 == bits && n / 4096 % 64 == b as int % 64
      && n / 64 % 64 == c as int % 64 && n % 64 == d as int % 64
  {
    hide Then;
    Quotients(Then(Then(Then(bits, b), c), d));
    ThenSplits(bits, b);
    ThenSplits(Then(bits, b), c);
    ThenSplits(Then(Then(bits, b), c), d);
  }

  lemma ThenSplits(bits: nat, b: Byte)
    ensures Then(bits, b) / 64 == bits && Then(bits, b) % 64 == b as int % 64
  {
  }

  lemma Quotients(n: nat)
    ensures n / 4096 == n / 64 / 64 && n / 0x4_0000 == n / 64 / 64 / 64
  {
  }

  // ------------------------------------------------------------- the plain editor

  predicate IsControl(r: Rune) {
    r < 0x20 || 0x7F <= r < 0xA0
  }

  predicate IsLineBreak(r: Rune) {
    r == 0x0D || r == 0x0A || r == 0x85 || r == 0x2028 || r == 0x2029
  }

  predicate Printable(s: seq<Rune>) {
    forall i | 0 <= i < |s| :: !IsControl(s[i])
  }

  /** Text before, inside and after the selection. The caret is at the selection's start, or
      at its end when it was made forwards. */
  datatype Line = Line(before: seq<Rune>, selected: seq<Rune>, after: seq<Rune>, forward: bool) {
    function Text(): seq<Rune> {
      before + selected + after
    }

    function Caret(): nat {
      if forward then |before| + |selected| else |before|
    }
  }

  /** With nothing selected there is no direction. */
  function Select(before: seq<Rune>, selected: seq<Rune>, after: seq<Rune>, forward: bool): Line {
    Line(before, selected, after, forward && selected != [])
  }

  function Type(l: Line, t: seq<Rune>): Line {
    Line(l.before + t, [], l.after, false)
  }

  function Backspace(l: Line): Line {
    if l.selected != [] || l.before == [] then l.(selected := [], forward := false)
    else Line(Init(l.before), [], l.after, false)
  }

  function Delete(l: Line): Line {
    if l.selected != [] || l.after == [] then l.(selected := [], forward := false)
    else Line(l.before, [], l.after[1..], false)
  }

  function Init(s: seq<Rune>): seq<Rune>
    requires s != []
  {
    s[..|s| - 1]
  }

  function Last(s: seq<Rune>): seq<Rune>
    requires s != []
  {
    s[|s| - 1..]
  }

  function Left(l: Line, shift: bool): Line {
    if !shift then
      if l.selected != [] then Line(l.before, [], l.selected + l.after, false)
      else if l.before == [] then l
      else Line(Init(l.before), [], Last(l.before) + l.after, false)
    else if l.forward && l.selected != [] then Select(l.before, Init(l.selected), Last(l.selected) + l.after, true)
    else if l.before == [] then l
    else Line(Init(l.before), Last(l.before) + l.selected, l.after, false)
  }

  function Right(l: Line, shift: bool): Line {
    if !shift then
      if l.selected != [] then Line(l.before + l.selected, [], l.after, false)
      else if l.after == [] then l
      else Line(l.before + l.after[..1], [], l.after[1..], false)
    else if !l.forward && l.selected != [] then Select(l.before + l.selected[..1], l.selected[1..], l.after, false)
    else if l.after == [] then l
    else Line(l.before, l.selected + l.after[..1], l.after[1..], true)
  }

  function Home(l: Line, shift: bool): Line {
    if !shift then Line([], [], l.Text(), false)
    else if l.forward then Line([], l.before, l.selected + l.after, false)
    else Line([], l.before + l.selected, l.after, false)
  }

  function End(l: Line, shift: bool): Line {
    if !shift then Line(l.Text(), [], [], false)
    else if l.forward then Select(l.before, l.selected + l.after, [], true)
    else Select(l.before + l.selected, l.after, [], true)
  }

  /** Text as it arrives with a key: not necessarily well-formed UTF-8. */
  datatype Input = Garbled | Runes(runes: seq<Rune>)

  datatype Event =
    | Paste(value: seq<Rune>)
    | Typed(input: Input)
    | LeftKey(shift: bool) | RightKey(shift: bool) | HomeKey(shift: bool) | EndKey(shift: bool)
    | BackspaceKey | DeleteKey
    | HelpKey

  datatype Screen = Screen(line: Line, status: Status)

  function Unbroken(s: seq<Rune>): seq<Rune> {
    if s == [] then []
    else if IsLineBreak(s[|s| - 1]) then Unbroken(s[..|s| - 1])
    else Unbroken(s[..|s| - 1]) + [s[|s| - 1]]
  }

  function Enter(s: Screen, t: seq<Rune>): Screen {
    var next := Type(s.line, t);
    if ByteLen(next.Text()) > MAX_SECRET_BYTES then s.(status := LimitError) else Screen(next, Clear)
  }

  function Handle(s: Screen, e: Event): Screen {
    match e
    case Paste(value) =>
      if exists i | 0 <= i < |value| :: IsControl(value[i]) && !IsLineBreak(value[i]) then s.(status := ControlError)
      else if Unbroken(value) == [] then s
      else Enter(s, Unbroken(value))
    case Typed(Garbled) => s
    case Typed(Runes(t)) => if t == [] || !Printable(t) then s else Enter(s, t)
    case LeftKey(shift) => s.(line := Left(s.line, shift))
    case RightKey(shift) => s.(line := Right(s.line, shift))
    case HomeKey(shift) => s.(line := Home(s.line, shift))
    case EndKey(shift) => s.(line := End(s.line, shift))
    case BackspaceKey =>
      Screen(Backspace(s.line), if s.line.selected == [] && s.line.before == [] then s.status else Clear)
    case DeleteKey => Screen(Delete(s.line), if s.line.selected == [] && s.line.after == [] then s.status else Clear)
    case HelpKey => s.(status := Help)
  }

  function HandleAll(s: Screen, events: seq<Event>): Screen {
    if events == [] then s else Handle(HandleAll(s, events[..|events| - 1]), events[|events| - 1])
  }

  // --------------------------------------------------------------- the editor's laws

  ghost predicate Sound(s: Screen) {
    && ByteLen(s.line.Text()) <= MAX_SECRET_BYTES
    && Printable(s.line.Text())
    && (s.line.forward ==> s.line.selected != [])
  }

  lemma {:induction false} UnbrokenIsPrintable(s: seq<Rune>)
    requires forall i | 0 <= i < |s| :: IsControl(s[i]) ==> IsLineBreak(s[i])
    ensures Printable(Unbroken(s))
  {
    if s != [] { UnbrokenIsPrintable(s[..|s| - 1]); }
  }

  /** Where the runes stand that are kept of a paste. */
  ghost function KeptAt(s: seq<Rune>): seq<nat> {
    if s == [] then []
    else if IsLineBreak(s[|s| - 1]) then KeptAt(s[..|s| - 1])
    else KeptAt(s[..|s| - 1]) + [|s| - 1]
  }

  lemma {:induction false} KeptInOrder(s: seq<Rune>, j: nat)
    ensures |KeptAt(s)| == |Unbroken(s)|
    ensures j < |KeptAt(s)| ==>
      && KeptAt(s)[j] < |s| && Unbroken(s)[j] == s[KeptAt(s)[j]]
      && (j > 0 ==> KeptAt(s)[j - 1] < KeptAt(s)[j])
    decreases |s|
  {
    hide IsLineBreak;
    if s != [] {
      KeptInOrder(s[..|s| - 1], j);
      if j > 0 { KeptInOrder(s[..|s| - 1], j - 1); }
    }
  }

  lemma {:induction false} KeptExactly(s: seq<Rune>, i: nat)
    ensures i in KeptAt(s) <==> i < |s| && !IsLineBreak(s[i])
  {
    hide IsLineBreak;
    if s != [] { KeptExactly(s[..|s| - 1], i); }
  }

  /** What is kept of a paste: exactly the runes that are no line breaks, in their order. */
  lemma UnbrokenKeepsOrder(s: seq<Rune>) returns (at: seq<nat>)
    ensures |at| == |Unbroken(s)| && forall j | 0 < j < |at| :: at[j - 1] < at[j]
    ensures forall j | 0 <= j < |at| :: at[j] < |s| && Unbroken(s)[j] == s[at[j]]
    ensures forall i: nat :: i in at <==> i < |s| && !IsLineBreak(s[i])
  {
    hide *;
    at := KeptAt(s);
    KeptInOrder(s, 0);
    forall j | 0 <= j < |at|
      ensures at[j] < |s| && Unbroken(s)[j] == s[at[j]] && (j > 0 ==> at[j - 1] < at[j])
    {
      KeptInOrder(s, j);
    }
    forall i: nat
      ensures i in at <==> i < |s| && !IsLineBreak(s[i])
    {
      KeptExactly(s, i);
    }
  }

  /** What a typed or pasted text does: it takes the place of the selection, with the caret
      behind it, or it does not fit and nothing but the status changes. */
  lemma EntryReplaces(s: Screen, t: seq<Rune>)
    ensures var l, r := s.line, Enter(s, t);
      var start, end := |l.before|, |l.before| + |l.selected|;
      var text := l.Text()[..start] + t + l.Text()[end..];
      && r.status == (if ByteLen(text) <= MAX_SECRET_BYTES then Clear else LimitError)
      && (r.status == LimitError ==> r.line == l)
      && (r.status == Clear ==>
            r.line.Text() == text && r.line.Caret() == start + |t| && r.line.selected == [] && !r.line.forward)
  {
    var l := s.line;
    assert l.Text()[..|l.before|] == l.before && l.Text()[|l.before| + |l.selected|..] == l.after;
    assert Type(l, t).Text() == l.before + t + l.after;
  }

  /** What the two removing keys do: take out the selection, or one rune beside the caret if
      there is one, and leave the caret there with nothing selected. */
  lemma RemovalsAreExact(l: Line)
    requires l.forward ==> l.selected != []
    ensures var text, start, end := l.Text(), |l.before|, |l.before| + |l.selected|;
      && Cut(text, if l.selected == [] && start > 0 then start - 1 else start, end, Backspace(l))
      && Cut(text, start, if l.selected == [] && end < |text| then end + 1 else end, Delete(l))
  {
  }

  /** A line holds a text without a span, with the caret where the span was. */
  ghost predicate Cut(text: seq<Rune>, start: nat, end: nat, l: Line)
    requires start <= end <= |text|
  {
    l.Text() == text[..start] + text[end..] && l.Caret() == start && l.selected == [] && !l.forward
  }

  /** A sequence is its ends and the rest. */
  lemma Ends(s: seq<Rune>)
    requires s != []
    ensures Init(s) + Last(s) == s == s[..1] + s[1..] && |Last(s)| == 1
    ensures Init(s) == [] ==> Last(s) == s
    ensures s[1..] == [] ==> s[..1] == s
  {
  }

  lemma OneSide(a: seq<Rune>, b: seq<Rune>, c: seq<Rune>)
    ensures [] + a + (b + c) == a + b + c == [] + (a + b) + c
    ensures a + (b + c) + [] == a + b + c == (a + b) + c + []
    ensures [] + [] + (a + b + c) == a + b + c == (a + b + c) + [] + []
  {
  }

  /** Moving the caret or the selection never changes the text. */
  lemma MovesKeepText(l: Line, shift: bool)
    ensures Left(l, shift).Text() == l.Text() == Right(l, shift).Text()
    ensures Home(l, shift).Text() == l.Text() == End(l, shift).Text()
  {
    LeftKeepsText(l, shift);
    RightKeepsText(l, shift);
    hide Left, Right;
    OneSide(l.before, l.selected, l.after);
  }

  lemma LeftKeepsText(l: Line, shift: bool)
    ensures Left(l, shift).Text() == l.Text()
  {
  }

  lemma RightKeepsText(l: Line, shift: bool)
    ensures Right(l, shift).Text() == l.Text()
  {
  }

  /** A shifted step and the step back cancel, in both orders. */
  lemma ShiftedStepsCancel(l: Line)
    requires l.forward ==> l.selected != []
    ensures l.Caret() > 0 ==> Right(Left(l, true), true) == l
    ensures l.Caret() < |l.Text()| ==> Left(Right(l, true), true) == l
  {
    if l.Caret() > 0 { LeftThenRight(l); }
    if l.Caret() < |l.Text()| { RightThenLeft(l); }
  }

  lemma Front(x: seq<Rune>, y: seq<Rune>)
    requires |x| == 1
    ensures (x + y)[..1] == x && (x + y)[1..] == y && x + y != []
  {
  }

  lemma Back(x: seq<Rune>, y: seq<Rune>)
    requires |y| == 1
    ensures x + y != [] && Init(x + y) == x && Last(x + y) == y
  {
  }

  lemma LeftThenRight(l: Line)
    requires (l.forward ==> l.selected != []) && l.Caret() > 0
    ensures Right(Left(l, true), true) == l
  {
    if l.forward { ShrinkThenGrow(l); } else { GrowThenShrink(l); }
  }

  lemma GrowThenShrink(l: Line)
    requires !l.forward && l.before != []
    ensures Right(Left(l, true), true) == l
  {
    var x, y := Init(l.before), Last(l.before);
    Ends(l.before);
    Front(y, l.selected);
    assert Left(l, true) == Line(x, y + l.selected, l.after, false);
    hide Left, Init, Last;
    assert Right(Line(x, y + l.selected, l.after, false), true) == Line(x + y, l.selected, l.after, false);
  }

  lemma ShrinkThenGrow(l: Line)
    requires l.forward && l.selected != []
    ensures Right(Left(l, true), true) == l
  {
    var x, y := Init(l.selected), Last(l.selected);
    Ends(l.selected);
    Front(y, l.after);
    assert Left(l, true) == Select(l.before, x, y + l.after, true);
    hide Left, Init, Last;
    assert Right(Line(l.before, x, y + l.after, x != []), true) == Line(l.before, x + y, l.after, true);
  }

  lemma RightThenLeft(l: Line)
    requires (l.forward ==> l.selected != []) && l.Caret() < |l.Text()|
    ensures Left(Right(l, true), true) == l
  {
    if !l.forward && l.selected != [] {
      Ends(l.selected);
      Back(l.before, l.selected[..1]);
      assert l.selected[..1] + [] == l.selected[..1];
    } else {
      assert l.after != [];
      Ends(l.after);
      Back(l.selected, l.after[..1]);
    }
    hide Init, Last;
    var m := Right(l, true);
    assert !l.forward && l.selected != [] ==> m == Select(l.before + l.selected[..1], l.selected[1..], l.after, false);
    assert l.forward || l.selected == [] ==> m == Line(l.before, l.selected + l.after[..1], l.after[1..], true);
    hide Right;
  }

  /** Typing one rune over no selection is taken back by either way of removing it. */
  lemma TypingIsUndone(l: Line, r: Rune)
    requires l.selected == [] && !l.forward
    ensures Backspace(Type(l, [r])) == l && Delete(Left(Type(l, [r]), false)) == l
  {
  }

  /** Every event keeps the limit, and a rejection changes nothing but the status. */
  lemma HandleKeepsSound(s: Screen, e: Event)
    requires Sound(s)
    ensures Sound(Handle(s, e))
    ensures Handle(s, e).status in {ControlError, LimitError} ==>
      Handle(s, e).line == s.line || Handle(s, e).status == s.status
  {
    hide ByteLen, Left, Right, Home, End, Backspace, Delete;
    match e
    case Paste(value) =>
      if forall i | 0 <= i < |value| :: IsControl(value[i]) ==> IsLineBreak(value[i]) {
        UnbrokenIsPrintable(value);
        TypedIsPrintable(s.line, Unbroken(value));
      }
    case Typed(Runes(t)) => if Printable(t) { TypedIsPrintable(s.line, t); }
    case LeftKey(shift) => MovesKeepText(s.line, shift); Directed(s.line, shift);
    case RightKey(shift) => MovesKeepText(s.line, shift); Directed(s.line, shift);
    case HomeKey(shift) => MovesKeepText(s.line, shift); Directed(s.line, shift);
    case EndKey(shift) => MovesKeepText(s.line, shift); Directed(s.line, shift);
    case BackspaceKey => Shorter(s.line);
    case DeleteKey => Shorter(s.line);
    case _ =>
  }

  lemma TypedIsPrintable(l: Line, t: seq<Rune>)
    requires Printable(l.Text()) && Printable(t)
    ensures Printable(Type(l, t).Text())
  {
    PrintableParts(l);
    PrintableParts(Type(l, t));
  }

  lemma Directed(l: Line, shift: bool)
    requires l.forward ==> l.selected != []
    ensures Left(l, shift).forward ==> Left(l, shift).selected != []
    ensures Right(l, shift).forward ==> Right(l, shift).selected != []
    ensures Home(l, shift).forward ==> Home(l, shift).selected != []
    ensures End(l, shift).forward ==> End(l, shift).selected != []
  {
  }

  lemma Shorter(l: Line)
    requires Printable(l.Text())
    ensures ByteLen(Backspace(l).Text()) <= ByteLen(l.Text()) && ByteLen(Delete(l).Text()) <= ByteLen(l.Text())
    ensures Printable(Backspace(l).Text()) && Printable(Delete(l).Text())
    ensures !Backspace(l).forward && !Delete(l).forward
  {
    if l.before != [] { Shorten(l, Init(l.before), l.after); }
    if l.after != [] { Shorten(l, l.before, l.after[1..]); }
    Shorten(l, l.before, l.after);
  }

  lemma Shorten(l: Line, before: seq<Rune>, after: seq<Rune>)
    requires Printable(l.Text()) && before <= l.before && |after| <= |l.after| &&
      after == l.after[|l.after| - |after|..]
    ensures var d := Line(before, [], after, false); ByteLen(d.Text()) <= ByteLen(l.Text()) && Printable(d.Text())
  {
    var d := Line(before, [], after, false);
    Parts(l);
    Parts(d);
    PrintableParts(l);
    PrintableParts(d);
    assert l.before == before + l.before[|before|..];
    ByteLenAppend(before, l.before[|before|..]);
    assert l.after == l.after[..|l.after| - |after|] + after;
    ByteLenAppend(l.after[..|l.after| - |after|], after);
  }

  lemma Parts(l: Line)
    ensures ByteLen(l.Text()) == ByteLen(l.before) + ByteLen(l.selected) + ByteLen(l.after)
  {
    ByteLenAppend(l.before + l.selected, l.after);
    ByteLenAppend(l.before, l.selected);
  }

  lemma PrintableParts(l: Line)
    ensures Printable(l.Text()) <==> Printable(l.before) && Printable(l.selected) && Printable(l.after)
  {
    var n, m := |l.before|, |l.before| + |l.selected|;
    assert forall i | 0 <= i < |l.Text()| ::
        l.Text()[i] == if i < n then l.before[i] else if i < m then l.selected[i - n] else l.after[i - m];
    if Printable(l.Text()) {
      assert forall i | 0 <= i < |l.before| :: l.before[i] == l.Text()[i];
      assert forall i | 0 <= i < |l.selected| :: l.selected[i] == l.Text()[n + i];
      assert forall i | 0 <= i < |l.after| :: l.after[i] == l.Text()[m + i];
    }
  }

  // --------------------------------------------------------------------- the code

  /** The line for a text, the fixed end of its selection, and its cursor. */
  function Placed(text: seq<Rune>, anchor: nat, cursor: nat): Line
    requires anchor <= |text| && cursor <= |text|
  {
    if anchor <= cursor then Line(text[..anchor], text[anchor..cursor], text[cursor..], anchor < cursor)
    else Line(text[..cursor], text[cursor..anchor], text[anchor..], false)
  }

  lemma PlacedText(text: seq<Rune>, anchor: nat, cursor: nat)
    requires anchor <= |text| && cursor <= |text|
    ensures Placed(text, anchor, cursor).Text() == text
  {
  }

  lemma CaretPlaced(text: seq<Rune>, before: seq<Rune>, after: seq<Rune>)
    requires text == before + [] + after || text == before + after
    ensures Placed(text, |before|, |before|) == Line(before, [], after, false)
  {
  }

  function Least(a: nat, b: nat): nat {
    if a < b then a else b
  }

  function Greatest(a: nat, b: nat): nat {
    if a < b then b else a
  }

  lemma Adjacent(text: seq<Rune>, i: nat, j: nat, k: nat)
    requires i <= j <= k <= |text|
    ensures text[i..j] + text[j..k] == text[i..k]
    ensures i < j ==> Init(text[i..j]) == text[i..j - 1] && Last(text[i..j]) == text[j - 1..j]
    ensures j < k ==> text[j..k][..1] == text[j..j + 1] && text[j..k][1..] == text[j + 1..k]
  {
  }

  lemma Whole(text: seq<Rune>, i: nat)
    requires i <= |text|
    ensures text[..i] == text[0..i] && text[i..] == text[i..|text|] && text[i..i] == []
  {
  }

  lemma LeftPlaced(text: seq<Rune>, a: nat, c: nat, shift: bool)
    requires a <= |text| && c <= |text|
    ensures Left(Placed(text, a, c), shift) ==
      if shift then Placed(text, a, if c > 0 then c - 1 else c)
      else if a != c then Placed(text, Least(a, c), Least(a, c))
      else if c > 0 then Placed(text, c - 1, c - 1) else Placed(text, c, c)
  {
    Whole(text, a);
    Whole(text, c);
    if shift {
      ShiftedLeft(text, a, c);
    } else {
      if c > 0 {
        Whole(text, c - 1);
        Adjacent(text, 0, c, |text|);
        Adjacent(text, c - 1, c, |text|);
      }
      Adjacent(text, Least(a, c), Greatest(a, c), |text|);
      hide Init, Last;
    }
  }

  lemma ShiftedLeft(text: seq<Rune>, a: nat, c: nat)
    requires a <= |text| && c <= |text|
    ensures Left(Placed(text, a, c), true) == Placed(text, a, if c > 0 then c - 1 else c)
  {
    if c > 0 {
      Whole(text, c);
      Whole(text, c - 1);
      Adjacent(text, 0, c, |text|);
      if a < c { Shrinks(text, a, c); } else { Adjacent(text, c - 1, c, a); }
      hide Init, Last;
    }
  }

  lemma Shrinks(text: seq<Rune>, a: nat, c: nat)
    requires a < c <= |text|
    ensures Left(Placed(text, a, c), true) == Placed(text, a, c - 1)
  {
    Whole(text, a);
    Whole(text, c);
    Whole(text, c - 1);
    Adjacent(text, a, c, |text|);
    Adjacent(text, c - 1, c, |text|);
    hide Init, Last;
    assert Left(Placed(text, a, c), true) == Select(text[..a], text[a..c - 1], text[c - 1..], true);
    assert text[a..c - 1] == [] <==> a == c - 1;
  }

  lemma RightPlaced(text: seq<Rune>, a: nat, c: nat, shift: bool)
    requires a <= |text| && c <= |text|
    ensures Right(Placed(text, a, c), shift) ==
      if shift then Placed(text, a, if c < |text| then c + 1 else c)
      else if a != c then Placed(text, Greatest(a, c), Greatest(a, c))
      else if c < |text| then Placed(text, c + 1, c + 1) else Placed(text, c, c)
  {
    Whole(text, a);
    Whole(text, c);
    if shift {
      ShiftedRight(text, a, c);
    } else {
      if c < |text| {
        Whole(text, c + 1);
        Adjacent(text, 0, c, c + 1);
        Adjacent(text, 0, c, |text|);
        Adjacent(text, c, c, |text|);
      }
      Adjacent(text, 0, Least(a, c), Greatest(a, c));
    }
  }

  lemma ShiftedRight(text: seq<Rune>, a: nat, c: nat)
    requires a <= |text| && c <= |text|
    ensures Right(Placed(text, a, c), true) == Placed(text, a, if c < |text| then c + 1 else c)
  {
    if c < |text| {
      Whole(text, c);
      Whole(text, c + 1);
      Adjacent(text, 0, c, c + 1);
      if c < a {
        Adjacent(text, c, c, a);
      } else {
        Adjacent(text, a, c, c + 1);
        Adjacent(text, c, c, |text|);
      }
    }
  }

  lemma EndsPlaced(text: seq<Rune>, a: nat, c: nat, shift: bool)
    requires a <= |text| && c <= |text|
    ensures Home(Placed(text, a, c), shift) == Placed(text, if shift then a else 0, 0)
    ensures End(Placed(text, a, c), shift) == Placed(text, if shift then a else |text|, |text|)
  {
    PlacedText(text, a, c);
    Whole(text, a);
    Whole(text, c);
    Whole(text, 0);
    Whole(text, |text|);
    Adjacent(text, 0, Least(a, c), Greatest(a, c));
    Adjacent(text, Least(a, c), Greatest(a, c), |text|);
  }

  /** Where a moving key leaves the cursor. */
  function Goal(length: nat, a: nat, c: nat, e: Event): nat
    requires e.LeftKey? || e.RightKey? || e.HomeKey? || e.EndKey?
  {
    match e
    case LeftKey(shift) => if !shift && a != c then Least(a, c) else if c > 0 then c - 1 else c
    case RightKey(shift) => if !shift && a != c then Greatest(a, c) else if c < length then c + 1 else c
    case HomeKey(_) => 0
    case EndKey(_) => length
  }

  lemma Moved(text: seq<Rune>, a: nat, c: nat, status: Status, e: Event)
    requires a <= |text| && c <= |text| && (e.LeftKey? || e.RightKey? || e.HomeKey? || e.EndKey?)
    requires Sound(Screen(Placed(text, a, c), status))
    ensures var s := Screen(Placed(text, a, c), status);
      var goal := Goal(|text|, a, c, e);
      && goal <= |text|
      && Handle(s, e) == s.(line := Placed(text, if e.shift then a else goal, goal))
      && Sound(Handle(s, e))
  {
    HandleKeepsSound(Screen(Placed(text, a, c), status), e);
    LeftPlaced(text, a, c, e.shift);
    RightPlaced(text, a, c, e.shift);
    EndsPlaced(text, a, c, e.shift);
    hide Placed, Sound, Left, Right, Home, End;
  }

  lemma Entered(was: Screen, value: seq<Rune>)
    requires Sound(was) && Printable(value)
    ensures var next := Type(was.line, value);
      if ByteLen(next.before + next.after) > MAX_SECRET_BYTES
      then Enter(was, value) == was.(status := LimitError) && Sound(was.(status := LimitError))
      else Enter(was, value) == Screen(next, Clear) && Sound(Screen(next, Clear))
  {
    TypedIsPrintable(was.line, value);
    var next := Type(was.line, value);
    assert next.before + next.selected + next.after == next.before + next.after;
  }

  /** The masked text and the caret's place in it: stars, and brackets around a selection. */
  function Masked(l: Line): (string, nat) {
    if l.selected == [] then (Stars(|l.before| + |l.after|), |l.before|)
    else
      (Stars(|l.before|) + "[" + Stars(|l.selected|) + "]" + Stars(|l.after|),
       if l.forward then |l.before| + |l.selected| + 2 else |l.before| + 1)
  }

  function Stars(n: nat): string {
    seq(n, _ => '*')
  }

  /** One star for each rune and one bracket at either end of a selection, nothing else; the
      caret stands outside the brackets at the selection's end, inside them at its start. */
  lemma MaskingIsExact(l: Line)
    ensures var (masked, column) := Masked(l);
      var start, end, n := |l.before|, |l.before| + |l.selected|, |l.Text()|;
      if start == end then |masked| == n && column == start && forall c | c in masked :: c == '*'
      else
        && |masked| == n + 2 && masked[start] == '[' && masked[end + 1] == ']'
        && (forall i | 0 <= i < n + 2 && i != start && i != end + 1 :: masked[i] == '*')
        && column == if l.forward then end + 2 else start + 1
  {
  }

  /** What rendering has produced before offset n. */
  function MaskedTo(n: nat, length: nat, start: nat, end: nat): string
    requires start <= end <= length
  {
    var m := Least(n, length);
    if start == end || n <= start then Stars(m)
    else if n <= end then Stars(start) + "[" + Stars(m - start)
    else Stars(start) + "[" + Stars(end - start) + "]" + Stars(m - end)
  }

  function Also(s: string, t: string, when: bool): string {
    if when then s + t else s
  }

  lemma MaskedOneMore(n: nat, length: nat, start: nat, end: nat)
    requires start <= end <= length && n <= length
    ensures MaskedTo(n + 1, length, start, end) ==
      Also(Also(Also(MaskedTo(n, length, start, end), "[", start != end && n == start), "]", start != end && n == end),
           "*", n < length)
  {
  }

  function CaretColumn(start: nat, end: nat, cursor: nat): nat {
    if start == end then cursor else if cursor == start then cursor + 1 else cursor + 2
  }

  lemma MaskedLength(n: nat, length: nat, start: nat, end: nat)
    requires start <= end <= length && n <= length
    ensures |MaskedTo(n, length, start, end)| ==
      if start == end || n <= start then n else if n <= end then n + 1 else n + 2
  {
  }

  lemma CaretPosition(n: nat, length: nat, start: nat, end: nat)
    requires start <= end <= length && (n == start || n == end)
    ensures CaretColumn(start, end, n) ==
      |Also(Also(MaskedTo(n, length, start, end), "[", start != end && n == start), "]", start != end && n == end)|
  {
    MaskedLength(n, length, start, end);
  }

  ghost predicate Zeroed(a: array<Rune>)
    reads a
  {
    forall i | 0 <= i < a.Length :: a[i] == 0
  }

  method WipeRunes(a: array<Rune>)
    modifies a
    ensures Zeroed(a)
  {
    for i := 0 to a.Length
      invariant forall k | 0 <= k < i :: a[k] == 0
    {
      a[i] := 0;
    }
  }

  /** append: part of one buffer behind what another already holds. */
  method Append(target: array<Rune>, used: nat, source: array<Rune>, from: nat, to: nat)
    requires from <= to <= source.Length && used + (to - from) <= target.Length && target != source
    modifies target
    ensures target[..used + (to - from)] == old(target[..used]) + source[from..to]
  {
    for i := from to to
      invariant target[..used + (i - from)] == old(target[..used]) + source[from..i]
    {
      target[used + (i - from)] := source[i];
      assert source[from..i + 1] == source[from..i] + [source[i]];
      assert target[..used + (i - from) + 1] == target[..used + (i - from)] + [source[i]];
    }
  }

  /** One buffer with a span replaced by another, in a third. */
  method Splice(target: array<Rune>, source: array<Rune>, start: nat, end: nat, inserted: array<Rune>)
    requires start <= end <= source.Length && target.Length == source.Length - (end - start) + inserted.Length
    requires target != source && target != inserted
    modifies target
    ensures target[..] == source[..start] + inserted[..] + source[end..]
  {
    Append(target, 0, source, 0, start);
    assert target[..start] == source[..start];
    Append(target, start, inserted, 0, inserted.Length);
    assert inserted[0..inserted.Length] == inserted[..];
    assert target[..start + inserted.Length] == source[..start] + inserted[..];
    Append(target, start + inserted.Length, source, end, source.Length);
    assert source[end..source.Length] == source[end..];
    assert target[..target.Length] == target[..];
  }

  /** One buffer without a span, in another. */
  method CutOut(target: array<Rune>, source: array<Rune>, start: nat, end: nat)
    requires start <= end <= source.Length && target.Length == source.Length - (end - start) && target != source
    modifies target
    ensures target[..] == source[..start] + source[end..]
  {
    Append(target, 0, source, 0, start);
    assert target[..start] == source[..start];
    Append(target, start, source, end, source.Length);
    assert source[end..source.Length] == source[end..];
    assert target[..target.Length] == target[..];
  }

  method Fill(target: array<Rune>, value: seq<Rune>)
    requires target.Length == |value|
    modifies target
    ensures target[..] == value
  {
    for i := 0 to |value|
      invariant target[..i] == value[..i]
    {
      target[i] := value[i];
    }
  }

  method SecretByteLen(a: array<Rune>) returns (length: nat)
    ensures length == ByteLen(a[..])
  {
    length := 0;
    for i := 0 to a.Length
      invariant length == ByteLen(a[..i])
    {
      assert a[..i + 1] == a[..i] + [a[i]];
      length := length + RuneLen(a[i]);
    }
    assert a[..a.Length] == a[..];
  }

  class SecretEditor {
    var buffer: array<Rune>
    var cursor: nat
    var anchor: nat
    var selecting: bool
    var status: Status
    ghost var made: set<array<Rune>>  // every rune buffer ever made

    /** The selection as offsets. */
    function Selection(): (span: (nat, nat))
      reads this
    {
      if !selecting || anchor == cursor then (cursor, cursor)
      else if anchor < cursor then (anchor, cursor)
      else (cursor, anchor)
    }

    /** The end of the selection that stays when the cursor moves. */
    ghost function Fixed(): nat
      reads this
    {
      if selecting then anchor else cursor
    }

    ghost function View(): Screen
      requires cursor <= buffer.Length && anchor <= buffer.Length
      reads this, buffer
    {
      Screen(Placed(buffer[..], Fixed(), cursor), status)
    }

    /** All buffers but the current one are zero. */
    ghost predicate Wiped()
      reads `buffer, `made, made
    {
      buffer in made && forall a | a in made && a != buffer :: Zeroed(a)
    }

    /** What holds between events. */
    ghost predicate Valid()
      reads this, buffer, made
    {
      && cursor <= buffer.Length && anchor <= buffer.Length
      && (if selecting then anchor != cursor else anchor == 0)
      && Wiped()
      && Sound(View())
    }

    constructor ()
      ensures Valid() && View() == Screen(Line([], [], [], false), Clear) && fresh(buffer)
    {
      buffer := new Rune[0];
      cursor, anchor, selecting, status := 0, 0, false, Clear;
      new;
      made := {buffer};
    }

    method Allocate(n: nat) returns (a: array<Rune>)
      modifies this`made
      ensures fresh(a) && a.Length == n && made == old(made) + {a}
    {
      a := new Rune[n];
      made := made + {a};
    }

    lemma WholeText()
      requires cursor <= buffer.Length && anchor <= buffer.Length
      ensures View().line.Text() == buffer[..]
    {
    }

    method ClearSelection()
      modifies this`anchor, this`selecting
      ensures anchor == 0 && !selecting
    {
      anchor := 0;
      selecting := false;
    }

    // ------------------------------------------------------------------- changing

    method Paste(value: seq<Rune>)
      requires Valid()
      modifies this, buffer
      ensures Valid() && View() == Handle(old(View()), Event.Paste(value))
      ensures buffer == old(buffer) || fresh(buffer)
      ensures old(made) <= made && fresh(made - old(made))
      ensures buffer != old(buffer) ==> Zeroed(old(buffer))
    {
      hide Valid, View, Enter, Unbroken;
      var accepted, normalized := Normalize(value);
      if !accepted {
        Report(ControlError);
        return;
      }
      if |normalized| == 0 {
        return;
      }
      UnbrokenIsPrintable(value);
      Insert(Runes(normalized), true);
    }

    method Report(error: Status)
      requires Valid()
      modifies `status
      ensures Valid() && View() == old(View()).(status := error)
    {
      hide Placed, Wiped, ByteLen, Printable;
      status := error;
    }

    /** The pasted text without line breaks, unless it has other control characters. */
    static method Normalize(value: seq<Rune>) returns (accepted: bool, normalized: seq<Rune>)
      ensures accepted <==> forall k | 0 <= k < |value| :: IsControl(value[k]) ==> IsLineBreak(value[k])
      ensures accepted ==> normalized == Unbroken(value)
    {
      normalized := [];
      for i := 0 to |value|
        invariant normalized == Unbroken(value[..i])
        invariant forall k | 0 <= k < i :: IsControl(value[k]) ==> IsLineBreak(value[k])
      {
        assert value[..i + 1][..i] == value[..i];
        if IsLineBreak(value[i]) {
          continue;
        }
        if IsControl(value[i]) {
          return false, [];
        }
        normalized := normalized + [value[i]];
      }
      assert value[..|value|] == value;
      return true, normalized;
    }

    /** insert, for pasted and for typed text. */
    method Insert(value: Input, paste: bool)
      requires Valid()
      modifies this, buffer
      ensures Valid()
      ensures View() == if value.Runes? && Printable(value.runes) then Enter(old(View()), value.runes)
                        else if paste then old(View()).(status := ControlError) else old(View())
      ensures buffer == old(buffer) || fresh(buffer)
      ensures old(made) <= made && fresh(made - old(made))
      ensures buffer != old(buffer) ==> Zeroed(old(buffer))
    {
      if value.Garbled? {
        if paste {
          status := ControlError;
        }
        return;
      }
      for i := 0 to |value.runes|
        invariant forall k | 0 <= k < i :: !IsControl(value.runes[k])
      {
        if IsControl(value.runes[i]) {
          if paste {
            status := ControlError;
          }
          return;
        }
      }
      InsertPrintable(value.runes);
    }

    method InsertPrintable(value: seq<Rune>)
      requires Valid() && Printable(value)
      modifies this, buffer
      ensures Valid() && View() == Enter(old(View()), value)
      ensures buffer == old(buffer) || fresh(buffer)
      ensures old(made) <= made && fresh(made - old(made))
      ensures buffer != old(buffer) ==> Zeroed(old(buffer))
    {
      SelectionPlaced();
      Entered(View(), value);
      hide Sound, Placed, Zeroed, Enter, ByteLen, View, Selection;
      var (start, end) := Selection();
      InsertAt(start, end, value);
    }

    /** The selected span replaced by the value, if the result is within the limit. */
    method InsertAt(start: nat, end: nat, value: seq<Rune>)
      requires Valid() && start <= end <= buffer.Length
      requires ByteLen(buffer[..start] + value + buffer[end..]) <= MAX_SECRET_BYTES ==>
        Sound(Screen(Line(buffer[..start] + value, [], buffer[end..], false), Clear))
      modifies this, buffer
      ensures Valid()
      ensures View() ==
        if ByteLen(old(buffer[..start]) + value + old(buffer[end..])) > MAX_SECRET_BYTES
        then old(View()).(status := LimitError)
        else Screen(Line(old(buffer[..start]) + value, [], old(buffer[end..]), false), Clear)
      ensures buffer == old(buffer) || fresh(buffer)
      ensures old(made) <= made && fresh(made - old(made))
      ensures buffer != old(buffer) ==> Zeroed(old(buffer))
    {
      hide Placed, Zeroed, ByteLen, Printable;
      ghost var before, after := buffer[..start] + value, buffer[end..];
      var inserted, candidate := Candidate(start, end, value);
      var length := SecretByteLen(candidate);
      if length > MAX_SECRET_BYTES {
        Discard(candidate, inserted);
      } else {
        Replace(candidate, inserted, start + |value|, before, after);
      }
    }

    /** The current buffer and the inserted text are wiped, and the candidate takes over. */
    method Replace(candidate: array<Rune>, inserted: array<Rune>, at: nat, ghost before: seq<Rune>,
                   ghost after: seq<Rune>)
      requires candidate in made && candidate != buffer && candidate != inserted
      requires forall a | a in made && a != buffer && a != candidate && a != inserted :: Zeroed(a)
      requires candidate[..] == before + after && at == |before|
      requires Sound(Screen(Line(before, [], after, false), Clear))
      modifies buffer, inserted, `buffer, `cursor, `anchor, `selecting, `status
      ensures Valid() && View() == Screen(Line(before, [], after, false), Clear)
      ensures buffer == candidate && Zeroed(old(buffer)) && Zeroed(inserted)
    {
      hide Sound, Placed, Zeroed, View;
      WipeRunes(buffer);
      WipeRunes(inserted);
      Install(candidate, at, before, after);
    }

    method Discard(candidate: array<Rune>, inserted: array<Rune>)
      requires candidate != buffer && inserted != buffer && buffer in made && cursor <= buffer.Length &&
        anchor <= buffer.Length
      requires forall a | a in made && a != buffer && a != candidate && a != inserted :: Zeroed(a)
      modifies candidate, inserted, `status
      ensures Zeroed(candidate) && Zeroed(inserted) && Wiped() && View() == old(View()).(status := LimitError)
    {
      hide Zeroed, Placed;
      WipeRunes(candidate);
      WipeRunes(inserted);
      status := LimitError;
    }

    /** The new buffer takes over, with the cursor between its two parts. */
    method Install(candidate: array<Rune>, at: nat, ghost before: seq<Rune>, ghost after: seq<Rune>)
      requires candidate in made && forall a | a in made && a != candidate :: Zeroed(a)
      requires candidate[..] == before + after && at == |before|
      requires Sound(Screen(Line(before, [], after, false), Clear))
      modifies `buffer, `cursor, `anchor, `selecting, `status
      ensures Valid() && View() == Screen(Line(before, [], after, false), Clear) && buffer == candidate
    {
      hide Sound, Placed;
      buffer := candidate;
      cursor := at;
      ClearSelection();
      status := Clear;
      CaretPlaced(buffer[..], before, after);
    }

    /** The buffer as it would be with the selection replaced. */
    method Candidate(start: nat, end: nat, value: seq<Rune>) returns (inserted: array<Rune>, candidate: array<Rune>)
      requires start <= end <= buffer.Length && buffer in made
      modifies this`made
      ensures fresh(inserted) && fresh(candidate) && inserted != candidate && made == old(made) + {inserted, candidate}
      ensures candidate[..] == buffer[..start] + value + buffer[end..]
    {
      inserted := Allocate(|value|);
      Fill(inserted, value);
      candidate := Allocate(buffer.Length - (end - start) + |value|);
      Splice(candidate, buffer, start, end, inserted);
    }

    /** The line in terms of the offsets of the selection. */
    lemma SelectionPlaced()
      requires cursor <= buffer.Length && anchor <= buffer.Length
      ensures var (start, end) := Selection();
        start <= end <= buffer.Length && View().line.before == buffer[..start] && View().line.after == buffer[end..]
        && View().line.selected == buffer[start..end]
    {
    }

    method Backspace()
      requires Valid()
      modifies this, buffer
      ensures Valid() && View() == Handle(old(View()), BackspaceKey)
      ensures buffer == old(buffer) || fresh(buffer)
      ensures old(made) <= made && fresh(made - old(made))
      ensures buffer != old(buffer) ==> Zeroed(old(buffer))
    {
      HandleKeepsSound(View(), BackspaceKey);
      SelectionPlaced();
      var (start, end) := Selection();
      if start == end {
        if start == 0 {
          return;
        }
        start := start - 1;
      }
      assert Handle(View(), BackspaceKey) == Screen(Line(buffer[..start], [], buffer[end..], false), Clear);
      Remove(start, end);
    }

    method Delete()
      requires Valid()
      modifies this, buffer
      ensures Valid() && View() == Handle(old(View()), DeleteKey)
      ensures buffer == old(buffer) || fresh(buffer)
      ensures old(made) <= made && fresh(made - old(made))
      ensures buffer != old(buffer) ==> Zeroed(old(buffer))
    {
      HandleKeepsSound(View(), DeleteKey);
      SelectionPlaced();
      var (start, end) := Selection();
      if start == end {
        if end == buffer.Length {
          return;
        }
        end := end + 1;
      }
      assert Handle(View(), DeleteKey) == Screen(Line(buffer[..start], [], buffer[end..], false), Clear);
      Remove(start, end);
    }

    method Remove(start: nat, end: nat)
      requires Valid() && start <= end <= buffer.Length
      requires Sound(Screen(Line(buffer[..start], [], buffer[end..], false), Clear))
      modifies this, buffer
      ensures Valid() && View() == Screen(Line(old(buffer[..start]), [], old(buffer[end..]), false), Clear)
      ensures fresh(buffer) && Zeroed(old(buffer))
      ensures old(made) <= made && fresh(made - old(made))
    {
      hide Sound, Placed, Zeroed;
      ghost var before, after := buffer[..start], buffer[end..];
      var candidate := Allocate(buffer.Length - (end - start));
      CutOut(candidate, buffer, start, end);
      WipeRunes(buffer);
      Install(candidate, start, before, after);
    }

    /** wipe: afterwards no buffer holds anything. */
    method Wipe()
      requires Valid()
      modifies this, buffer
      ensures Valid() && View() == Screen(Line([], [], [], false), Clear)
      ensures forall a | a in old(made) :: Zeroed(a)
      ensures old(made) <= made && fresh(made - old(made))
    {
      WipeRunes(buffer);
      buffer := Allocate(0);
      cursor := 0;
      ClearSelection();
      status := Clear;
    }

    // --------------------------------------------------------------------- moving

    method MoveLeft(shift: bool)
      requires Valid()
      modifies `cursor, `anchor, `selecting
      ensures Valid() && View() == Handle(old(View()), LeftKey(shift)) && buffer == old(buffer)
    {
      hide Handle, Placed, Sound, Wiped;
      ghost var text, a, c := buffer[..], Fixed(), cursor;
      Moved(text, a, c, status, LeftKey(shift));
      if !shift && selecting {
        var (start, _) := Selection();
        cursor := start;
        ClearSelection();
        return;
      }
      BeginSelection(shift);
      if cursor > 0 {
        cursor := cursor - 1;
      }
      FinishSelection(shift);
      assert View().line == Placed(text, if shift then a else cursor, cursor);
    }

    method MoveRight(shift: bool)
      requires Valid()
      modifies `cursor, `anchor, `selecting
      ensures Valid() && View() == Handle(old(View()), RightKey(shift)) && buffer == old(buffer)
    {
      hide Handle, Placed, Sound, Wiped;
      ghost var text, a, c := buffer[..], Fixed(), cursor;
      Moved(text, a, c, status, RightKey(shift));
      if !shift && selecting {
        var (_, end) := Selection();
        cursor := end;
        ClearSelection();
        return;
      }
      BeginSelection(shift);
      if cursor < buffer.Length {
        cursor := cursor + 1;
      }
      FinishSelection(shift);
      assert View().line == Placed(text, if shift then a else cursor, cursor);
    }

    /** Home and End. */
    method MoveTo(position: nat, shift: bool)
      requires Valid() && (position == 0 || position == buffer.Length)
      modifies `cursor, `anchor, `selecting
      ensures Valid() && buffer == old(buffer)
      ensures position == 0 ==> View() == Handle(old(View()), HomeKey(shift))
      ensures position == buffer.Length ==> View() == Handle(old(View()), EndKey(shift))
    {
      hide Handle, Placed, Sound, Wiped;
      ghost var text, a, c := buffer[..], Fixed(), cursor;
      Moved(text, a, c, status, HomeKey(shift));
      Moved(text, a, c, status, EndKey(shift));
      BeginSelection(shift);
      cursor := position;
      FinishSelection(shift);
      assert View().line == Placed(text, if shift then a else cursor, cursor);
    }

    method BeginSelection(shift: bool)
      modifies this`anchor, this`selecting
      ensures !shift ==> anchor == 0 && !selecting
      ensures shift ==> selecting && anchor == if old(selecting) then old(anchor) else cursor
    {
      if shift && !selecting {
        anchor := cursor;
        selecting := true;
      }
      if !shift {
        ClearSelection();
      }
    }

    method FinishSelection(shift: bool)
      modifies this`anchor, this`selecting
      ensures if !shift || old(anchor) == cursor then anchor == 0 && !selecting
        else anchor == old(anchor) && selecting == old(selecting)
    {
      if shift && anchor == cursor {
        ClearSelection();
      }
      if !shift {
        ClearSelection();
      }
    }

    // -------------------------------------------------------------------- reading

    method Render() returns (masked: string, at: nat)
      requires Valid()
      ensures (masked, at) == Masked(View().line)
    {
      var (start, end) := Selection();
      MaskedFrom(start, end);
      masked, at := Mask(buffer.Length, start, end, cursor);
    }

    static method Mask(length: nat, start: nat, end: nat, cursor: nat) returns (masked: string, at: nat)
      requires start <= end <= length && (cursor == start || cursor == end)
      ensures masked == MaskedTo(length + 1, length, start, end) && at == CaretColumn(start, end, cursor)
    {
      hide MaskedTo, CaretColumn;
      MaskedLength(0, length, start, end);
      var selected := start != end;
      masked, at := "", 0;
      for i := 0 to length + 1
        invariant masked == MaskedTo(i, length, start, end)
        invariant i > cursor ==> at == CaretColumn(start, end, cursor)
      {
        MaskedOneMore(i, length, start, end);
        if i == cursor { CaretPosition(i, length, start, end); }
        if selected && i == start {
          masked := masked + "[";
        }
        if selected && i == end {
          masked := masked + "]";
        }
        if i == cursor {
          at := |masked|;
        }
        if i < length {
          masked := masked + "*";
        }
      }
    }

    lemma MaskedFrom(start: nat, end: nat)
      requires Valid() && Selection() == (start, end)
      ensures start <= end <= buffer.Length && (cursor == start || cursor == end)
      ensures Masked(View().line) ==
        (MaskedTo(buffer.Length + 1, buffer.Length, start, end), CaretColumn(start, end, cursor))
    {
      hide Sound, Wiped;
      SelectionPlaced();
    }

    /** bytes: what decodes as UTF-8 to the text, and has the length computed beforehand. */
    method Bytes() returns (result: seq<Byte>)
      requires Valid()
      ensures Decode(result) == Some(View().line.Text())
      ensures |result| == ByteLen(View().line.Text()) <= MAX_SECRET_BYTES
    {
      WholeText();
      EncodedLength(buffer[..]);
      assert ByteLen(buffer[..]) <= MAX_SECRET_BYTES;
      hide Sound, Placed, Wiped, EncodeRune, ByteLen, Decode;
      result := EncodeAll(buffer);
      EncodesExactly(buffer[..], result);
    }

    static method EncodeAll(a: array<Rune>) returns (result: seq<Byte>)
      ensures result == Encode(a[..])
    {
      hide EncodeRune;
      result := [];
      for i := 0 to a.Length
        invariant result == Encode(a[..i])
      {
        assert a[..i + 1][..i] == a[..i];
        result := result + EncodeRune(a[i]);
      }
      assert a[..a.Length] == a[..];
    }

    // ------------------------------------------------------------------- sessions

    method Press(e: Event)
      requires Valid()
      modifies this, buffer
      ensures Valid() && View() == Handle(old(View()), e)
      ensures buffer == old(buffer) || fresh(buffer)
      ensures old(made) <= made && fresh(made - old(made))
      ensures buffer != old(buffer) ==> Zeroed(old(buffer))
    {
      hide *;
      match e {
        case Paste(value) => Paste(value);
        case Typed(input) => TypeText(input);
        case LeftKey(shift) => MoveLeft(shift);
        case RightKey(shift) => MoveRight(shift);
        case HomeKey(shift) => MoveTo(0, shift);
        case EndKey(shift) => MoveTo(buffer.Length, shift);
        case BackspaceKey => Backspace();
        case DeleteKey => Delete();
        case HelpKey => ShowHelp();
      }
    }

    method TypeText(input: Input)
      requires Valid()
      modifies this, buffer
      ensures Valid() && View() == Handle(old(View()), Typed(input))
      ensures buffer == old(buffer) || fresh(buffer)
      ensures old(made) <= made && fresh(made - old(made))
      ensures buffer != old(buffer) ==> Zeroed(old(buffer))
    {
      hide Valid, View, Enter;
      if input != Runes([]) {
        Insert(input, false);
      }
    }

    method ShowHelp()
      requires Valid()
      modifies `status
      ensures Valid() && View() == Handle(old(View()), HelpKey) && buffer == old(buffer)
    {
      hide Placed, Wiped, ByteLen, Printable;
      status := Help;
    }

    /** Any sequence of events: the editor is the plain editor, within the limit, and only
        the current buffer holds anything. */
    method Session(events: seq<Event>)
      requires Valid()
      modifies this, buffer
      ensures Valid() && View() == HandleAll(old(View()), events)
      ensures buffer == old(buffer) || fresh(buffer)
      ensures old(made) <= made && fresh(made - old(made))
      ensures forall a | a in old(made) && a != buffer :: Zeroed(a)
    {
      for i := 0 to |events|
        invariant Valid() && View() == HandleAll(old(View()), events[..i])
        invariant buffer == old(buffer) || fresh(buffer)
        invariant old(made) <= made && fresh(made - old(made))
      {
        assert events[..i + 1][..i] == events[..i];
        Press(events[i]);
      }
      assert events[..|events|] == events;
    }
  }
}
