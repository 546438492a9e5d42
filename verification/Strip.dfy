/** crates/core/src/util.rs: the escape-sequence stripper. */
module Strip {
  const ESC: char := '\U{1B}'
  const BEL: char := '\U{07}'

  predicate IsControl(c: char) {
    c as int < 0x20 || 0x7F <= c as int <= 0x9F
  }

  predicate IsBidiOrFormat(c: char) {
    var v := c as int;
    || 0x200B <= v <= 0x200F
    || 0x202A <= v <= 0x202E
    || 0x2060 <= v <= 0x2064
    || 0x2066 <= v <= 0x2069
    || v == 0xFEFF
  }

  predicate IsDropped(c: char) {
    (IsControl(c) && c != '\n' && c != '\r' && c != '\t') || IsBidiOrFormat(c)
  }

  predicate IsCsiFinal(c: char) {
    0x40 <= c as int <= 0x7E
  }

  predicate IsStringIntroducer(c: char) {
    c == 'P' || c == 'X' || c == '^' || c == '_'
  }

  // ---- The meaning: a transducer that never looks ahead ----

  datatype Mode = Text | Escape | Csi | Osc | OtherString

  function Next(m: Mode, c: char): Mode {
    match m
    case Text => if c == ESC then Escape else Text
    case Escape =>
      if c == '[' then Csi else if c == ']' then Osc else if IsStringIntroducer(c) then OtherString else Text
    case Csi => if IsCsiFinal(c) then Text else Csi
    case Osc => if c == BEL then Text else if c == ESC then Escape else Osc
    case OtherString => if c == ESC then Escape else OtherString
  }

  function Emitted(m: Mode, c: char): string {
    if m.Text? && c != ESC && !IsDropped(c) then [c] else ""
  }

  function ModeAfter(m: Mode, s: string): Mode
    decreases |s|
  {
    if s == "" then m else ModeAfter(Next(m, s[0]), s[1..])
  }

  function Output(m: Mode, s: string): string
    decreases |s|
  {
    if s == "" then "" else Emitted(m, s[0]) + Output(Next(m, s[0]), s[1..])
  }

  function Stripped(s: string): string {
    Output(Text, s)
  }

  /** The output from position `i` on. */
  ghost function OutputFrom(m: Mode, s: string, i: nat): string
    requires i <= |s|
  {
    Output(m, s[i..])
  }

  lemma Skip(m: Mode, s: string, i: nat)
    requires i < |s| && Emitted(m, s[i]) == ""
    ensures OutputFrom(m, s, i) == OutputFrom(Next(m, s[i]), s, i + 1)
  {
    assert s[i..][1..] == s[i + 1..];
  }

  lemma Keep(out: string, s: string, i: nat)
    requires i < |s| && Emitted(Text, s[i]) == [s[i]]
    ensures out + OutputFrom(Text, s, i) == out + [s[i]] + OutputFrom(Text, s, i + 1)
  {
    assert s[i..][1..] == s[i + 1..];
  }

  /** An ESC ends a string sequence whether it starts a terminator or not: the outer
      scanner goes on from it as from a fresh escape. */
  lemma EscapeEndsString(m: Mode, s: string, i: nat)
    requires (m.Osc? || m.OtherString?) && i < |s| && s[i] == ESC
    ensures OutputFrom(m, s, i) == OutputFrom(Text, s, i)
    ensures i + 1 < |s| && s[i + 1] == '\\' ==> OutputFrom(m, s, i) == OutputFrom(Text, s, i + 2)
  {
    Skip(m, s, i);
    Skip(Text, s, i);
    if i + 1 < |s| && s[i + 1] == '\\' {
      Skip(Escape, s, i + 1);
    }
  }

  // ---- The scanner, with its lookahead ----

  /** Skips the body of a string sequence from position `i`. An ESC that does not
      start a terminator stays unread: the caller meets it again. */
  method ConsumeStringTerminated(s: string, i: nat, allowBel: bool) returns (j: nat)
    requires i <= |s|
    ensures i <= j <= |s|
    ensures OutputFrom(if allowBel then Osc else OtherString, s, i) == OutputFrom(Text, s, j)
  {
    j := i;
    ghost var m := if allowBel then Osc else OtherString;
    while j < |s|
      invariant i <= j <= |s|
      invariant OutputFrom(m, s, i) == OutputFrom(m, s, j)
    {
      if allowBel && s[j] == BEL {
        Skip(m, s, j);
        j := j + 1;
        return;
      }
      if s[j] == ESC {
        EscapeEndsString(m, s, j);
        if j + 1 < |s| && s[j + 1] == '\\' {
          j := j + 2;
          return;
        }
        return;
      }
      Skip(m, s, j);
      j := j + 1;
    }
  }

  /** Skips parameter and intermediate characters up to and including the final one. */
  method ConsumeCsi(s: string, i: nat) returns (j: nat)
    requires i <= |s|
    ensures i <= j <= |s|
    ensures OutputFrom(Csi, s, i) == OutputFrom(Text, s, j)
  {
    j := i;
    while j < |s|
      invariant i <= j <= |s|
      invariant OutputFrom(Csi, s, i) == OutputFrom(Csi, s, j)
    {
      Skip(Csi, s, j);
      j := j + 1;
      if IsCsiFinal(s[j - 1]) {
        return;
      }
    }
  }

  /** What follows an ESC; at the end of the input there is nothing to skip. */
  method ConsumeEscape(s: string, i: nat) returns (j: nat)
    requires i <= |s|
    ensures i <= j <= |s|
    ensures OutputFrom(Escape, s, i) == OutputFrom(Text, s, j)
  {
    j := i;
    if i < |s| {
      Skip(Escape, s, i);
      if s[i] == '[' {
        j := ConsumeCsi(s, i + 1);
      } else if s[i] == ']' {
        j := ConsumeStringTerminated(s, i + 1, true);
      } else if IsStringIntroducer(s[i]) {
        j := ConsumeStringTerminated(s, i + 1, false);
      } else {
        j := i + 1;
      }
    }
  }

  method StripControl(s: string) returns (out: string)
    ensures out == Stripped(s)
  {
    out := "";
    var i := 0;
    assert s[0..] == s;
    while i < |s|
      invariant 0 <= i <= |s|
      invariant Stripped(s) == out + OutputFrom(Text, s, i)
    {
      var c := s[i];
      i := i + 1;
      if c == ESC {
        Skip(Text, s, i - 1);
        i := ConsumeEscape(s, i);
      } else if IsDropped(c) {
        Skip(Text, s, i - 1);
      } else {
        Keep(out, s, i - 1);
        out := out + [c];
      }
    }
  }

  // ---- Composition ----

  lemma {:induction false} OutputAppend(m: Mode, s: string, t: string)
    ensures Output(m, s + t) == Output(m, s) + Output(ModeAfter(m, s), t)
    ensures ModeAfter(m, s + t) == ModeAfter(ModeAfter(m, s), t)
    decreases |s|
  {
    if s == "" {
      assert s + t == t;
    } else {
      assert (s + t)[1..] == s[1..] + t && (s + t)[0] == s[0];
      OutputAppend(Next(m, s[0]), s[1..], t);
    }
  }

  /** Stripping a text in two pieces gives the same as stripping it whole, provided
      the mode reached is carried over: the transducer's five modes are all the
      memory it takes. */
  lemma StripInPieces(s: string, t: string)
    ensures Stripped(s + t) == Stripped(s) + Output(ModeAfter(Text, s), t)
    ensures ModeAfter(Text, s) == Text ==> Stripped(s + t) == Stripped(s) + Stripped(t)
  {
    OutputAppend(Text, s, t);
  }

  // ---- What comes out ----

  predicate IsClean(s: string) {
    forall i :: 0 <= i < |s| ==> s[i] != ESC && !IsDropped(s[i])
  }

  /** `s` is `t` with characters left out. */
  predicate IsSubsequence(s: string, t: string) {
    if s == "" then true
    else if t == "" then false
    else if s[0] == t[0] then IsSubsequence(s[1..], t[1..])
    else IsSubsequence(s, t[1..])
  }

  lemma {:induction false} OutputIsCleanSubsequence(m: Mode, s: string)
    ensures IsClean(Output(m, s)) && IsSubsequence(Output(m, s), s)
    decreases |s|
  {
    if s != "" {
      OutputIsCleanSubsequence(Next(m, s[0]), s[1..]);
      var rest := Output(Next(m, s[0]), s[1..]);
      if Emitted(m, s[0]) == "" {
        SubsequenceOfLonger(rest, s);
        assert "" + rest == rest;
      } else {
        assert ([s[0]] + rest)[1..] == rest;
      }
    }
  }

  lemma {:induction false} SubsequenceOfLonger(s: string, t: string)
    requires t != "" && IsSubsequence(s, t[1..])
    ensures IsSubsequence(s, t)
    decreases |t|, |s|
  {
    if s != "" && s[0] == t[0] {
      TailIsSubsequence(s, t[1..]);
    }
  }

  lemma {:induction false} TailIsSubsequence(s: string, t: string)
    requires s != "" && IsSubsequence(s, t)
    ensures IsSubsequence(s[1..], t)
    decreases |t|, |s|
  {
    if s[0] == t[0] {
      SubsequenceOfLonger(s[1..], t);
    } else {
      TailIsSubsequence(s, t[1..]);
      SubsequenceOfLonger(s[1..], t);
    }
  }

  lemma {:induction false} CleanTextPasses(s: string)
    requires IsClean(s)
    ensures Stripped(s) == s && ModeAfter(Text, s) == Text
  {
    if s != "" {
      assert forall i :: 0 <= i < |s[1..]| ==> s[1..][i] == s[i + 1];
      CleanTextPasses(s[1..]);
      assert s == [s[0]] + s[1..];
    }
  }

  /** On any input, complete or not, the output is a clean subsequence of it, and
      stripping again changes nothing; clean text is what stripping leaves alone. */
  lemma StrippedIsCleanAndStable(s: string)
    ensures IsClean(Stripped(s)) && IsSubsequence(Stripped(s), s)
    ensures Stripped(Stripped(s)) == Stripped(s)
    ensures Stripped(s) == s <==> IsClean(s)
  {
    OutputIsCleanSubsequence(Text, s);
    CleanTextPasses(Stripped(s));
    if IsClean(s) {
      CleanTextPasses(s);
    }
  }

  // ---- Printing control sequences and stripping them again ----

  /** A text run or a well-formed sequence. CSI: section 5.4 of ECMA-48. Control
      strings: section 5.6, where BEL as the end of an OSC is xterm's. */
  datatype Piece =
    | Run(text: string)
    | CsiSequence(parameters: string, intermediates: string, final: char)
    | OscString(body: string, bel: bool)
    | ControlString(introducer: char, body: string)
    | TwoCharacter(second: char)

  const ST := [ESC, '\\']

  predicate WellFormed(p: Piece) {
    match p
    case Run(text) => IsClean(text)
    case CsiSequence(ps, inter, f) =>
      && (forall i :: 0 <= i < |ps| ==> 0x30 <= ps[i] as int <= 0x3F)
      && (forall i :: 0 <= i < |inter| ==> 0x20 <= inter[i] as int <= 0x2F)
      && IsCsiFinal(f)
    case OscString(body, _) => ESC !in body && BEL !in body
    case ControlString(intro, body) => IsStringIntroducer(intro) && ESC !in body
    case TwoCharacter(c) => c != '[' && c != ']' && !IsStringIntroducer(c)
  }

  function Printed(p: Piece): string {
    match p
    case Run(text) => text
    case CsiSequence(ps, inter, f) => [ESC, '['] + ps + inter + [f]
    case OscString(body, bel) => [ESC, ']'] + body + (if bel then [BEL] else ST)
    case ControlString(intro, body) => [ESC, intro] + body + ST
    case TwoCharacter(c) => [ESC, c]
  }

  function PrintedAll(ps: seq<Piece>): string {
    if ps == [] then "" else Printed(ps[0]) + PrintedAll(ps[1..])
  }

  function TextOf(ps: seq<Piece>): string {
    if ps == [] then "" else (if ps[0].Run? then ps[0].text else "") + TextOf(ps[1..])
  }

  /** A stretch that neither ends the mode nor prints. */
  lemma {:induction false} Silent(m: Mode, s: string)
    requires forall i :: 0 <= i < |s| ==> Next(m, s[i]) == m && Emitted(m, s[i]) == ""
    ensures ModeAfter(m, s) == m && Output(m, s) == ""
  {
    if s != "" {
      assert forall i :: 0 <= i < |s[1..]| ==> s[1..][i] == s[i + 1];
      Silent(m, s[1..]);
    }
  }

  lemma OneCharacter(m: Mode, c: char)
    ensures ModeAfter(m, [c]) == Next(m, c) && Output(m, [c]) == Emitted(m, c)
  {
    assert [c][1..] == "";
    assert Output(Next(m, c), "") == "";
  }

  lemma Introduced(c: char)
    ensures ModeAfter(Text, [ESC, c]) == Next(Escape, c) && Output(Text, [ESC, c]) == ""
  {
    assert [ESC, c][1..] == [c];
    OneCharacter(Escape, c);
  }

  lemma Terminated(m: Mode)
    requires m.Osc? || m.OtherString?
    ensures ModeAfter(m, ST) == Text && Output(m, ST) == ""
  {
    assert ST[1..] == ['\\'];
    OneCharacter(Escape, '\\');
  }

  /** An introducer and a body that stays in its mode print nothing. */
  lemma Head(introducer: char, body: string)
    requires forall i :: 0 <= i < |body| ==>
               Next(Next(Escape, introducer), body[i]) == Next(Escape, introducer) && Emitted(Next(Escape, introducer), body[i]) == ""
    ensures Output(Text, [ESC, introducer] + body) == "" && ModeAfter(Text, [ESC, introducer] + body) == Next(Escape, introducer)
  {
    Introduced(introducer);
    Silent(Next(Escape, introducer), body);
    OutputAppend(Text, [ESC, introducer], body);
  }

  lemma SequenceStrips(introducer: char, body: string, end: string)
    requires var m := Next(Escape, introducer);
             && (forall i :: 0 <= i < |body| ==> Next(m, body[i]) == m && Emitted(m, body[i]) == "")
             && ModeAfter(m, end) == Text && Output(m, end) == ""
    ensures Stripped([ESC, introducer] + body + end) == ""
    ensures ModeAfter(Text, [ESC, introducer] + body + end) == Text
  {
    Head(introducer, body);
    OutputAppend(Text, [ESC, introducer] + body, end);
  }

  lemma CsiStrips(body: string, f: char)
    requires (forall i :: 0 <= i < |body| ==> !IsCsiFinal(body[i])) && IsCsiFinal(f)
    ensures Stripped([ESC, '['] + body + [f]) == "" && ModeAfter(Text, [ESC, '['] + body + [f]) == Text
  {
    OneCharacter(Csi, f);
    SequenceStrips('[', body, [f]);
  }

  lemma PieceStrips(p: Piece)
    requires WellFormed(p)
    ensures Stripped(Printed(p)) == (if p.Run? then p.text else "")
    ensures ModeAfter(Text, Printed(p)) == Text
  {
    match p
    case Run(text) => CleanTextPasses(text);
    case CsiSequence(ps, inter, f) =>
      CsiStrips(ps + inter, f);
      assert Printed(p) == [ESC, '['] + (ps + inter) + [f];
    case OscString(body, bel) =>
      Terminated(Osc);
      OneCharacter(Osc, BEL);
      SequenceStrips(']', body, if bel then [BEL] else ST);
    case ControlString(intro, body) =>
      Terminated(OtherString);
      SequenceStrips(intro, body, ST);
    case TwoCharacter(c) => Introduced(c);
  }

  /** Stripping undoes the printer: of any list of pieces exactly the text remains. */
  lemma {:induction false} StripUndoesPrinting(ps: seq<Piece>)
    requires forall i :: 0 <= i < |ps| ==> WellFormed(ps[i])
    ensures Stripped(PrintedAll(ps)) == TextOf(ps)
  {
    if ps != [] {
      PieceStrips(ps[0]);
      OutputAppend(Text, Printed(ps[0]), PrintedAll(ps[1..]));
      StripUndoesPrinting(ps[1..]);
    }
  }

  /** A control string cut short by another escape does not swallow it: whatever
      begins with ESC strips as if the unfinished string were not there. */
  lemma UnterminatedStringEndsAtEscape(introducer: char, body: string, rest: string)
    requires introducer == ']' || IsStringIntroducer(introducer)
    requires ESC !in body && (introducer == ']' ==> BEL !in body)
    requires rest != "" && rest[0] == ESC
    ensures Stripped([ESC, introducer] + body + rest) == Stripped(rest)
  {
    Head(introducer, body);
    OutputAppend(Text, [ESC, introducer] + body, rest);
    assert Output(Next(Escape, introducer), rest) == Output(Text, rest);
  }

  // ---- The whole behaviour, in equations over literal characters ----

  /** Text: of the characters other than ESC (0x1B) exactly those outside the ranges
      below remain; tab, line feed and carriage return are kept. */
  lemma TextCharacter(c: char, rest: string)
    requires c as int != 0x1B
    ensures var v := c as int;
            Stripped([c] + rest)
            == (if (v < 0x20 && v != 9 && v != 10 && v != 13) || 0x7F <= v <= 0x9F
                   || 0x200B <= v <= 0x200F || 0x202A <= v <= 0x202E
                   || 0x2060 <= v <= 0x2064 || 0x2066 <= v <= 0x2069 || v == 0xFEFF
                then "" else [c]) + Stripped(rest)
  {
    assert ([c] + rest)[1..] == rest;
  }

  /** The characters of a text without ESC that remain, in order. */
  function Remaining(s: string): string {
    if s == "" then ""
    else
      var v := s[0] as int;
      (if v == 9 || v == 10 || v == 13 || 0x20 <= v <= 0x7E || 0xA0 <= v <= 0x200A || 0x2010 <= v <= 0x2029
          || 0x202F <= v <= 0x205F || v == 0x2065 || 0x206A <= v <= 0xFEFE || 0xFF00 <= v then [s[0]] else "")
      + Remaining(s[1..])
  }

  lemma {:induction false} TextKeepsRemaining(s: string)
    requires forall i :: 0 <= i < |s| ==> s[i] as int != 0x1B
    ensures Stripped(s) == Remaining(s)
  {
    if s != "" {
      TextKeepsRemaining(s[1..]);
      assert s == [s[0]] + s[1..];
      TextCharacter(s[0], s[1..]);
    }
  }

  /** On any input nothing else comes out. */
  lemma OnlyRemainingComesOut(s: string, i: nat)
    requires i < |Stripped(s)|
    ensures var v := Stripped(s)[i] as int;
            && (0x20 <= v || v == 9 || v == 10 || v == 13) && !(0x7F <= v <= 0x9F)
            && !(0x200B <= v <= 0x200F) && !(0x202A <= v <= 0x202E)
            && !(0x2060 <= v <= 0x2064) && !(0x2066 <= v <= 0x2069) && v != 0xFEFF
  {
    StrippedIsCleanAndStable(s);
  }

  /** A control sequence ends with its first character in 0x40 to 0x7E, whatever comes
      before that; unfinished it swallows the rest. */
  lemma ControlSequence(body: string, f: char, rest: string)
    requires forall i :: 0 <= i < |body| ==> !(0x40 <= body[i] as int <= 0x7E)
    ensures Stripped(['\U{1B}', '['] + body) == ""
    ensures 0x40 <= f as int <= 0x7E ==> Stripped(['\U{1B}', '['] + body + [f] + rest) == Stripped(rest)
  {
    Head('[', body);
    var head := [ESC, '['] + body;
    OutputAppend(Text, head, [f] + rest);
    assert head + [f] + rest == head + ([f] + rest) && ([f] + rest)[1..] == rest;
  }

  /** An OSC string ends with BEL (0x07), or before the next ESC; the other strings only
      before the next ESC; unfinished they swallow the rest. */
  lemma ControlStrings(introducer: char, body: string, rest: string)
    requires introducer == ']' || introducer == 'P' || introducer == 'X' || introducer == '^' || introducer == '_'
    requires forall i :: 0 <= i < |body| ==> body[i] as int != 0x1B
    requires introducer == ']' ==> forall i :: 0 <= i < |body| ==> body[i] as int != 7
    ensures Stripped(['\U{1B}', introducer] + body) == ""
    ensures Stripped(['\U{1B}', introducer] + body + ['\U{1B}'] + rest) == Stripped(['\U{1B}'] + rest)
    ensures introducer == ']' ==> Stripped(['\U{1B}', introducer] + body + ['\U{7}'] + rest) == Stripped(rest)
  {
    Head(introducer, body);
    var head := [ESC, introducer] + body;
    assert head + [ESC] + rest == head + ([ESC] + rest);
    UnterminatedStringEndsAtEscape(introducer, body, [ESC] + rest);
    if introducer == ']' {
      EndsWithBell(body, rest);
    }
  }

  lemma EndsWithBell(body: string, rest: string)
    requires forall i :: 0 <= i < |body| ==> body[i] as int != 0x1B && body[i] as int != 7
    ensures Stripped([ESC, ']'] + body + [BEL] + rest) == Stripped(rest)
  {
    var head := [ESC, ']'] + body;
    Head(']', body);
    assert head + [BEL] + rest == head + ([BEL] + rest);
    OutputAppend(Text, head, [BEL] + rest);
    assert ([BEL] + rest)[1..] == rest;
  }

  /** Any other character after an ESC goes with it, another ESC included. */
  lemma TwoCharacterEscape(c: char, rest: string)
    requires c != '[' && c != ']' && c != 'P' && c != 'X' && c != '^' && c != '_'
    ensures Stripped(['\U{1B}', c] + rest) == Stripped(rest) && Stripped(['\U{1B}']) == ""
  {
    Introduced(c);
    OutputAppend(Text, [ESC, c], rest);
  }
}
