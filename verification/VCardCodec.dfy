/** The text form of a contact card line.

    Lines are quoted and folded, and parsed again one character at a time. */
module VCardCodec {
  import opened Wrappers

  datatype Attr = Attr(name: string, value: Option<string>)

  datatype CardLine = CardLine(name: string, attrs: seq<Attr>, value: string)

  const FOLD_AT: nat := 75

  // ----- Letters

  function UpChar(c: char): char {
    if 'a' <= c <= 'z' then c - ('a' - 'A') else c
  }

  function LowChar(c: char): char {
    if 'A' <= c <= 'Z' then c + ('a' - 'A') else c
  }

  function Upper(s: string): string {
    seq(|s|, i requires 0 <= i < |s| => UpChar(s[i]))
  }

  function Lower(s: string): string {
    seq(|s|, i requires 0 <= i < |s| => LowChar(s[i]))
  }

  predicate LowerCase(s: string) {
    forall c :: c in s ==> !('A' <= c <= 'Z')
  }

  lemma CaseRoundTrip(s: string)
    ensures Lower(Upper(s)) == s <==> LowerCase(s)
    ensures forall c :: c in ":=" ==> (c in Upper(s) <==> c in s)
  {
    if !LowerCase(s) {
      var i :| 0 <= i < |s| && 'A' <= s[i] <= 'Z';
      assert Lower(Upper(s))[i] != s[i];
    } else {
      forall i | 0 <= i < |s| ensures Lower(Upper(s))[i] == s[i] {
        assert s[i] in s;
      }
    }
    forall c | c in ":=" ensures c in Upper(s) <==> c in s {
      if c in s {
        var i :| 0 <= i < |s| && s[i] == c;
        assert Upper(s)[i] == c;
      }
      if c in Upper(s) {
        var i :| 0 <= i < |s| && Upper(s)[i] == c;
        assert s[i] == c;
      }
    }
  }

  // ----- Writing

  function QuoteChar(c: char): string {
    match c
    case '\\' => "\\\\"
    case ',' => "\\,"
    case ';' => "\\;"
    case '\n' => "\\n"
    case '\r' => "\\r"
    case _ => [c]
  }

  function Quote(text: string): string {
    if text == "" then "" else QuoteChar(text[0]) + Quote(text[1..])
  }

  /** An attribute as the parser reads it, once unquoted. */
  function RawAttr(a: Attr): string {
    Upper(a.name) + match a.value { case None => "" case Some(v) => "=" + v }
  }

  function AttrText(a: Attr): string {
    ";" + Quote(Upper(a.name)) + match a.value { case None => "" case Some(v) => "=" + Quote(v) }
  }

  function AttrsText(attrs: seq<Attr>): string {
    if attrs == [] then "" else AttrText(attrs[0]) + AttrsText(attrs[1..])
  }

  /** The unfolded line. */
  function LineText(l: CardLine): string {
    Quote(Upper(l.name)) + AttrsText(l.attrs) + ":" + Quote(l.value)
  }

  /** The length of a character in UTF-8. */
  function Width(c: char): nat {
    if c < '\U{80}' then 1 else if c < '\U{800}' then 2 else if c < '\U{10000}' then 3 else 4
  }

  function Octets(s: string): nat {
    if s == "" then 0 else Width(s[0]) + Octets(s[1..])
  }

  /** The rest of the line, folded, when llen octets are on the physical line. */
  function Folded(text: string, llen: nat): string {
    if text == "" then ""
    else if llen + Width(text[0]) >= FOLD_AT then "\n " + [text[0]] + Folded(text[1..], Width(text[0]))
    else [text[0]] + Folded(text[1..], llen + Width(text[0]))
  }

  method AsVCardLine(l: CardLine) returns (wrapped: string)
    ensures wrapped == Folded(LineText(l), 0)
  {
    hide Quote, Upper, AttrText, AttrsText, Width, Folded;
    var key := Quote(Upper(l.name));
    var n := 0;
    assert l.attrs[0..] == l.attrs;
    while n < |l.attrs|
      invariant 0 <= n <= |l.attrs|
      invariant key + AttrsText(l.attrs[n..]) == Quote(Upper(l.name)) + AttrsText(l.attrs)
    {
      AttrsTextStep(key, l.attrs[n..]);
      AttrTextParts(key, l.attrs[n]);
      assert l.attrs[n..][1..] == l.attrs[n + 1..];
      match l.attrs[n].value {
        case None => key := key + ";" + Quote(Upper(l.attrs[n].name));
        case Some(v) => key := key + ";" + Quote(Upper(l.attrs[n].name)) + "=" + Quote(v);
      }
      n := n + 1;
    }
    assert l.attrs[n..] == [];
    NothingLeft(key);
    var line := key + ":" + Quote(l.value);
    wrapped := "";
    var llen: nat, i := 0, 0;
    assert line[0..] == line && wrapped + Folded(line, 0) == Folded(line, 0);
    while i < |line|
      invariant 0 <= i <= |line|
      invariant wrapped + Folded(line[i..], llen) == Folded(line, 0)
    {
      var clen := Width(line[i]);
      FoldedStep(wrapped, line[i..], llen);
      assert line[i..][1..] == line[i + 1..];
      if llen + clen >= FOLD_AT {
        wrapped := wrapped + "\n ";
        llen := 0;
      }
      wrapped := wrapped + [line[i]];
      llen := llen + clen;
      i := i + 1;
    }
    assert line[i..] == "";
    NothingLeft(wrapped);
  }

  lemma NothingLeft(text: string)
    ensures text + AttrsText([]) == text
    ensures forall llen :: text + Folded("", llen) == text
  {}

  lemma AttrsTextStep(key: string, attrs: seq<Attr>)
    requires attrs != []
    ensures key + AttrsText(attrs) == key + AttrText(attrs[0]) + AttrsText(attrs[1..])
  {
    hide AttrText;
  }

  lemma AttrTextParts(key: string, a: Attr)
    ensures a.value.None? ==> key + AttrText(a) == key + ";" + Quote(Upper(a.name))
    ensures a.value.Some? ==> key + AttrText(a) == key + ";" + Quote(Upper(a.name)) + "=" + Quote(a.value.value)
  {
    hide Quote, Upper;
    assert key + (";" + Quote(Upper(a.name)) + "") == key + ";" + Quote(Upper(a.name));
  }

  lemma FoldedStep(wrapped: string, text: string, llen: nat)
    requires text != ""
    ensures wrapped + Folded(text, llen) ==
      if llen + Width(text[0]) >= FOLD_AT
      then wrapped + "\n " + [text[0]] + Folded(text[1..], Width(text[0]))
      else wrapped + [text[0]] + Folded(text[1..], llen + Width(text[0]))
  {}

  // ----- Folding

  /** Every stretch of text between line breaks is short enough. */
  ghost predicate LinesFit(s: string, limit: nat) {
    forall i, j :: 0 <= i <= j <= |s| && '\n' !in s[i..j] ==> Octets(s[i..j]) <= limit
  }

  /** The stretch at the start of the text is short enough. */
  ghost predicate HeadFits(s: string, limit: nat) {
    forall j :: 0 <= j <= |s| && '\n' !in s[..j] ==> Octets(s[..j]) <= limit
  }

  lemma HeadOf(c: char, s: string, limit: nat)
    requires c != '\n' && Width(c) <= limit && HeadFits(s, limit - Width(c))
    ensures HeadFits([c] + s, limit)
  {
    var t := [c] + s;
    forall j | 0 <= j <= |t| && '\n' !in t[..j] ensures Octets(t[..j]) <= limit {
      if j > 0 {
        assert t[..j] == [c] + s[..j - 1];
        assert t[..j][1..] == s[..j - 1];
      }
    }
  }

  lemma FitsOf(c: char, s: string, limit: nat)
    requires LinesFit(s, limit) && (c == '\n' || HeadFits([c] + s, limit))
    ensures LinesFit([c] + s, limit)
  {
    var t := [c] + s;
    forall i, j | 0 <= i <= j <= |t| && '\n' !in t[i..j] ensures Octets(t[i..j]) <= limit {
      if i > 0 {
        assert t[i..j] == s[i - 1..j - 1];
      } else {
        assert t[i..j] == t[..j] && (j > 0 ==> t[..j][0] == c);
      }
    }
  }

  lemma NothingFits(limit: nat, head: nat)
    ensures LinesFit("", limit) && HeadFits("", head)
  {}

  lemma BreakFits(s: string, limit: nat)
    ensures HeadFits(['\n'] + s, limit)
  {
    assert forall j :: 1 <= j <= |s| + 1 ==> (['\n'] + s)[..j][0] == '\n';
  }

  lemma WidthIsSmall(c: char)
    ensures 1 <= Width(c) <= 4 && Width(' ') == 1
  {}

  lemma SameLineFits(c: char, tail: string, head: nat)
    requires c != '\n' && Width(c) <= head < FOLD_AT
    requires LinesFit(tail, FOLD_AT) && HeadFits(tail, head - Width(c))
    ensures LinesFit([c] + tail, FOLD_AT) && HeadFits([c] + tail, head)
  {
    hide LinesFit, HeadFits, Width;
    HeadOf(c, tail, head);
    HeadFitsMore([c] + tail, head, FOLD_AT);
    FitsOf(c, tail, FOLD_AT);
  }

  lemma NewLineFits(c: char, tail: string, head: nat)
    requires c != '\n' && LinesFit(tail, FOLD_AT) && HeadFits(tail, FOLD_AT - 1 - Width(c))
    ensures LinesFit("\n " + [c] + tail, FOLD_AT) && HeadFits("\n " + [c] + tail, head)
  {
    hide LinesFit, HeadFits, Width;
    WidthIsSmall(c);
    SameLineFits(c, tail, FOLD_AT - 1);
    HeadOf(' ', [c] + tail, FOLD_AT);
    FitsOf(' ', [c] + tail, FOLD_AT);
    FitsOf('\n', [' '] + ([c] + tail), FOLD_AT);
    BreakFits([' '] + ([c] + tail), head);
    assert "\n " + [c] + tail == ['\n'] + ([' '] + ([c] + tail));
  }

  /** Every physical line has at most 75 octets (RFC 6350, section 3.2); characters
      are kept whole, because only whole characters are counted and copied. */
  lemma {:induction false} FoldedLinesFit(text: string, llen: nat)
    requires '\n' !in text && llen < FOLD_AT
    ensures LinesFit(Folded(text, llen), FOLD_AT)
    ensures HeadFits(Folded(text, llen), FOLD_AT - 1 - llen)
  {
    hide LinesFit, HeadFits, Width;
    if text == "" {
      NothingFits(FOLD_AT, FOLD_AT - 1 - llen);
    } else {
      var c, rest := text[0], text[1..];
      WidthIsSmall(c);
      if llen + Width(c) >= FOLD_AT {
        FoldedLinesFit(rest, Width(c));
        NewLineFits(c, Folded(rest, Width(c)), FOLD_AT - 1 - llen);
      } else {
        FoldedLinesFit(rest, llen + Width(c));
        SameLineFits(c, Folded(rest, llen + Width(c)), FOLD_AT - 1 - llen);
      }
    }
  }

  lemma HeadFitsMore(s: string, limit: nat, more: nat)
    requires HeadFits(s, limit) && limit <= more
    ensures HeadFits(s, more)
  {}

  /** A text is folded only if it would reach 75 octets. */
  lemma {:induction false} ShortIsNotFolded(text: string, llen: nat)
    requires '\n' !in text
    ensures Folded(text, llen) == text <==> text == "" || llen + Octets(text) < 75
    decreases text
  {
    hide Width;
    if text != "" {
      var c, rest := text[0], text[1..];
      if llen + Width(c) >= FOLD_AT {
        assert Folded(text, llen)[0] == '\n' && text[0] in text;
      } else {
        ShortIsNotFolded(rest, llen + Width(c));
        var tail := Folded(rest, llen + Width(c));
        assert Folded(text, llen) == [c] + tail && text == [c] + rest;
        assert ([c] + tail)[1..] == tail;
      }
    }
  }

  /** The length of a character in UTF-8 (RFC 3629, section 3). */
  lemma OctetsOfChar(a: string, c: char, b: string)
    ensures Octets(a + [c] + b) == Octets(a) + Octets(b)
      + if c as int <= 0x7f then 1 else if c as int <= 0x7ff then 2 else if c as int <= 0xffff then 3 else 4
  {
    OctetsAppend(a + [c], b);
    OctetsAppend(a, [c]);
    assert [c][1..] == "";
  }

  lemma {:induction false} OctetsAppend(a: string, b: string)
    ensures Octets(a + b) == Octets(a) + Octets(b)
  {
    if a == "" {
      assert a + b == b;
    } else {
      assert (a + b)[1..] == a[1..] + b;
      OctetsAppend(a[1..], b);
    }
  }

  /** Remove every line break that is followed by the given blank. */
  function Joined(text: string, blank: char): string {
    if text == "" then ""
    else if |text| >= 2 && text[0] == '\n' && text[1] == blank then Joined(text[2..], blank)
    else [text[0]] + Joined(text[1..], blank)
  }

  function Unwrap(text: string): string {
    Joined(Joined(text, ' '), '\t')
  }

  lemma {:induction false} JoinedPlain(text: string, blank: char)
    requires '\n' !in text
    ensures Joined(text, blank) == text
  {
    if text != "" {
      JoinedPlain(text[1..], blank);
    }
  }

  lemma JoinedChar(c: char, tail: string)
    requires c != '\n'
    ensures Joined([c] + tail, ' ') == [c] + Joined(tail, ' ')
  {
    assert ([c] + tail)[1..] == tail;
  }

  lemma JoinedBreak(c: char, tail: string)
    requires c != '\n'
    ensures Joined("\n " + [c] + tail, ' ') == [c] + Joined(tail, ' ')
  {
    hide Width;
    var s := "\n " + [c] + tail;
    assert s[2..] == [c] + tail;
    JoinedChar(c, tail);
  }

  lemma {:induction false} JoinedFolded(text: string, llen: nat)
    requires '\n' !in text
    ensures Joined(Folded(text, llen), ' ') == text
  {
    hide Joined;
    if text == "" {
      JoinedPlain(text, ' ');
    } else {
      var c, rest := text[0], text[1..];
      if llen + Width(c) >= FOLD_AT {
        var tail := Folded(rest, Width(c));
        JoinedFolded(rest, Width(c));
        JoinedBreak(c, tail);
      } else {
        var tail := Folded(rest, llen + Width(c));
        JoinedFolded(rest, llen + Width(c));
        JoinedChar(c, tail);
      }
    }
  }

  /** Unfolding undoes folding. */
  lemma UnwrapFolded(text: string)
    requires '\n' !in text
    ensures Unwrap(Folded(text, 0)) == text
  {
    JoinedFolded(text, 0);
    JoinedPlain(text, '\t');
  }

  lemma {:induction false} QuoteHasNoBreak(text: string)
    ensures '\n' !in Quote(text)
  {
    if text != "" { QuoteHasNoBreak(text[1..]); }
  }

  lemma {:induction false} AttrsHaveNoBreak(attrs: seq<Attr>)
    ensures '\n' !in AttrsText(attrs)
  {
    if attrs != [] {
      AttrsHaveNoBreak(attrs[1..]);
      QuoteHasNoBreak(Upper(attrs[0].name));
      if attrs[0].value.Some? { QuoteHasNoBreak(attrs[0].value.value); }
    }
  }

  lemma LineHasNoBreak(l: CardLine)
    ensures '\n' !in LineText(l)
  {
    QuoteHasNoBreak(Upper(l.name));
    AttrsHaveNoBreak(l.attrs);
    QuoteHasNoBreak(l.value);
  }

  // ----- Parsing

  /** part is 0 in the name, 1 in an attribute and 2 in the value; quoted means that
      the last character was an unquoted backslash. */
  datatype State = State(quoted: bool, part: nat, parsed: string, name: Option<string>, attrs: seq<Attr>)

  const START := State(false, 0, "", None, [])

  /** What a backslash and the character after it stand for. */
  function Unquoted(c: char): string {
    match c
    case '\\' => "\\"
    case ',' => ","
    case ';' => ";"
    case 'n' => "\n"
    case 'r' => "\r"
    case _ => ['\\', c]
  }

  /** The text before and after the first equals sign. */
  function SplitAttr(raw: string): Attr {
    var i := FirstEquals(raw);
    if i < |raw| then Attr(Lower(raw[..i]), Some(raw[i + 1..])) else Attr(Lower(raw), None)
  }

  function FirstEquals(raw: string): (i: nat)
    ensures i <= |raw| && '=' !in raw[..i] && (i < |raw| ==> raw[i] == '=')
  {
    if raw == "" || raw[0] == '=' then 0 else 1 + FirstEquals(raw[1..])
  }

  /** The name or the attribute ends here. */
  function Close(s: State): State {
    if s.part == 0 then s.(name := Some(Lower(s.parsed)), parsed := "")
    else s.(attrs := s.attrs + [SplitAttr(s.parsed)], parsed := "")
  }

  function Step(s: State, c: char): State {
    if s.quoted then
      s.(quoted := false, parsed := (if s.parsed == "" then "" else s.parsed[..|s.parsed| - 1]) + Unquoted(c))
    else if c == '\\' then
      s.(quoted := true, parsed := s.parsed + [c])
    else if s.part < 2 && c == ';' then
      Close(s).(part := 1)
    else if s.part < 2 && c == ':' then
      Close(s).(part := 2)
    else
      s.(parsed := s.parsed + [c])
  }

  function Run(s: State, text: string): State
    decreases text
  {
    if text == "" then s else Run(Step(s, text[0]), text[1..])
  }

  method ParseLine(text: string) returns (name: Option<string>, attrs: seq<Attr>, parsed: string)
    ensures var s := Run(START, text); s.name == name && s.attrs == attrs && s.parsed == parsed
  {
    name, attrs, parsed := None, [], "";
    var quoted, part := false, 0;
    var i := 0;
    while i < |text|
      invariant 0 <= i <= |text| && 0 <= part <= 2
      invariant Run(START, text) == Run(State(quoted, part, parsed, name, attrs), text[i..])
    {
      var c := text[i];
      assert text[i..][1..] == text[i + 1..];
      if quoted {
        parsed := (if parsed == "" then "" else parsed[..|parsed| - 1]) + Unquoted(c);
        quoted := false;
      } else if c == '\\' {
        parsed := parsed + [c];
        quoted := true;
      } else if part == 0 && (c == ';' || c == ':') {
        name := Some(Lower(parsed));
        parsed := "";
        part := part + if c == ';' then 1 else 2;
      } else if part == 1 && (c == ';' || c == ':') {
        attrs := attrs + [SplitAttr(parsed)];
        parsed := "";
        if c == ':' {
          part := part + 1;
        }
      } else {
        parsed := parsed + [c];
      }
      i := i + 1;
    }
  }

  lemma {:induction false} RunAppend(s: State, a: string, b: string)
    ensures Run(s, a + b) == Run(Run(s, a), b)
    decreases a
  {
    if a == "" {
      assert a + b == b;
    } else {
      assert (a + b)[1..] == a[1..] + b;
      RunAppend(Step(s, a[0]), a[1..], b);
    }
  }

  lemma RunQuotedChar(s: State, c: char)
    requires !s.quoted && (s.part >= 2 || c != ':')
    ensures Run(s, QuoteChar(c)) == s.(parsed := s.parsed + [c])
  {
    hide Run, QuoteChar, Unquoted;
    QuotedCharMeaning(c);
    RunFew(s, QuoteChar(c));
    assert (s.parsed + ['\\'])[..|s.parsed|] == s.parsed;
  }

  lemma QuotedCharMeaning(c: char)
    ensures var q := QuoteChar(c);
            || (q == [c] && c != '\\' && c != ';')
            || (|q| == 2 && q[0] == '\\' && Unquoted(q[1]) == [c])
  {}

  lemma RunFew(s: State, q: string)
    ensures |q| == 1 ==> Run(s, q) == Step(s, q[0])
    ensures |q| == 2 ==> Run(s, q) == Step(Step(s, q[0]), q[1])
  {
    hide Step;
    if |q| == 1 {
      assert q[1..] == "";
    } else if |q| == 2 {
      assert q[1..][0] == q[1] && q[1..][1..] == "";
      assert Run(s, q) == Run(Step(s, q[0]), q[1..]);
    }
  }

  /** Reading quoted text gives the text back, if no colon ends it. */
  lemma {:induction false} RunQuote(s: State, text: string)
    requires !s.quoted && (s.part >= 2 || ':' !in text)
    ensures Run(s, Quote(text)) == s.(parsed := s.parsed + text)
    decreases text
  {
    hide Step;
    if text == "" {
      assert s.parsed + text == s.parsed;
    } else {
      var s' := s.(parsed := s.parsed + [text[0]]);
      RunAppend(s, QuoteChar(text[0]), Quote(text[1..]));
      RunQuotedChar(s, text[0]);
      RunQuote(s', text[1..]);
      assert s.parsed + [text[0]] + text[1..] == s.parsed + text;
    }
  }

  lemma {:induction false} QuoteAppend(a: string, b: string)
    ensures Quote(a + b) == Quote(a) + Quote(b)
  {
    if a == "" {
      assert a + b == b;
    } else {
      assert (a + b)[1..] == a[1..] + b;
      QuoteAppend(a[1..], b);
    }
  }

  /** The written forms: five characters are escaped, wherever they stand, and no others. */
  lemma WrittenForms(a: string, c: char, b: string)
    ensures Quote(a + [c] + b) == Quote(a)
      + (if c == '\\' then "\\\\" else if c == ',' then "\\," else if c == ';' then "\\;"
         else if c == '\n' then "\\n" else if c == '\r' then "\\r" else [c])
      + Quote(b)
  {
    hide QuoteChar;
    QuoteAppend(a + [c], b);
    QuoteAppend(a, [c]);
    QuoteOne(c);
  }

  lemma QuoteOne(c: char)
    ensures Quote([c]) == if c == '\\' then "\\\\" else if c == ',' then "\\," else if c == ';' then "\\;"
      else if c == '\n' then "\\n" else if c == '\r' then "\\r" else [c]
  {
    assert [c][1..] == "";
    assert QuoteChar(c) + "" == QuoteChar(c);
  }

  /** Reading a backslash and a character: the five forms give one character, and any
      other pair stays as it is. */
  lemma ReadForms(s: State, c: char)
    requires !s.quoted
    ensures Run(s, ['\\', c]) == s.(parsed := s.parsed
      + (if c == '\\' then "\\" else if c == ',' then "," else if c == ';' then ";"
         else if c == 'n' then "\n" else if c == 'r' then "\r" else ['\\', c]))
  {
    hide Run;
    RunFew(s, ['\\', c]);
    assert (s.parsed + ['\\'])[..|s.parsed|] == s.parsed;
  }

  /** What has been read stays; in the value nothing but the value grows. */
  lemma {:induction false} RunKeeps(s: State, text: string)
    ensures s.attrs <= Run(s, text).attrs
    ensures s.part == 1 ==> Run(s, text).name == s.name
    ensures s.part >= 2 ==> Run(s, text).name == s.name && Run(s, text).attrs == s.attrs
    decreases text
  {
    if text != "" { RunKeeps(Step(s, text[0]), text[1..]); }
  }

  function ColonAt(text: string): (i: nat)
    ensures i <= |text| && ':' !in text[..i] && (i < |text| <==> ':' in text) && (i < |text| ==> text[i] == ':')
  {
    if text == "" || text[0] == ':' then 0 else 1 + ColonAt(text[1..])
  }

  lemma QuoteOfColon(text: string)
    requires text != "" && text[0] == ':'
    ensures Quote(text) == ":" + Quote(text[1..])
  {}

  lemma StepOfColon(s: State)
    requires !s.quoted && s.part < 2
    ensures Step(s, ':') == Close(s).(part := 2)
    ensures Step(s, ';') == Close(s).(part := 1)
  {}

  /** A colon that is not escaped ends the name or the attribute early. */
  lemma RunColon(s: State, text: string, more: string)
    requires !s.quoted && s.part < 2 && ':' in text
    ensures var i := ColonAt(text);
            var closed := Close(s.(parsed := s.parsed + text[..i]));
            var r := Run(s, Quote(text) + more);
            r.name == closed.name && r.attrs == closed.attrs
  {
    hide Step, Close, Quote, ColonAt, Run;
    var i := ColonAt(text);
    var before := text[..i];
    var after := Quote(text[i + 1..]) + more;
    QuoteToColon(text, more);
    RunAppend(s, Quote(before), ":" + after);
    RunQuote(s, before);
    var s1 := s.(parsed := s.parsed + before);
    RunFirst(s1, ':', after);
    StepOfColon(s1);
    RunKeeps(Close(s1).(part := 2), after);
  }

  lemma QuoteToColon(text: string, more: string)
    requires ':' in text
    ensures var i := ColonAt(text); Quote(text) + more == Quote(text[..i]) + (":" + (Quote(text[i + 1..]) + more))
  {
    hide Quote, ColonAt;
    var i := ColonAt(text);
    QuoteAppend(text[..i], text[i..]);
    assert text[..i] + text[i..] == text;
    QuoteOfColon(text[i..]);
    assert text[i..][1..] == text[i + 1..];
    assert Quote(text) == Quote(text[..i]) + (":" + Quote(text[i + 1..]));
  }

  lemma RunFirst(s: State, c: char, rest: string)
    ensures Run(s, [c] + rest) == Run(Step(s, c), rest)
  {
    hide Step;
    assert ([c] + rest)[1..] == rest;
  }

  // ----- Reading back what was written

  predicate CleanAttr(a: Attr) {
    && LowerCase(a.name) && ':' !in a.name && '=' !in a.name
    && (a.value.Some? ==> ':' !in a.value.value)
  }

  /** What the format can carry: quoting protects neither colons nor, in attribute
      names, equals signs, and names lose their case. */
  predicate CleanLine(l: CardLine) {
    && LowerCase(l.name) && ':' !in l.name
    && CleanAttrs(l.attrs)
  }

  function Read(text: string): Option<CardLine> {
    var s := Run(START, text);
    if s.name.Some? then Some(CardLine(s.name.value, s.attrs, s.parsed)) else None
  }

  lemma AttrTextIsQuoted(a: Attr)
    ensures AttrText(a) == ";" + Quote(RawAttr(a))
  {
    hide Upper;
    if a.value.Some? {
      QuoteAppend(Upper(a.name), "=" + a.value.value);
      assert ("=" + a.value.value)[1..] == a.value.value;
    } else {
      assert RawAttr(a) == Upper(a.name);
    }
  }

  function Size(a: Attr): nat {
    |a.name| + if a.value.Some? then 1 + |a.value.value| else 0
  }

  lemma SplitSize(raw: string, a: Attr)
    ensures Size(SplitAttr(raw)) == |raw| && |RawAttr(a)| == Size(a)
  {}

  lemma FirstEqualsIs(raw: string, i: nat)
    requires i <= |raw| && '=' !in raw[..i] && (i < |raw| ==> raw[i] == '=')
    ensures FirstEquals(raw) == i
  {
    var j := FirstEquals(raw);
    assert forall k :: 0 <= k < i ==> raw[k] in raw[..i];
    assert forall k :: 0 <= k < j ==> raw[k] in raw[..j];
  }

  lemma SplitIsExact(a: Attr)
    ensures SplitAttr(RawAttr(a)) == a <==> LowerCase(a.name) && '=' !in a.name
  {
    var raw, n := RawAttr(a), |a.name|;
    CaseRoundTrip(a.name);
    assert raw[..n] == Upper(a.name);
    if '=' in a.name {
      var i := FirstEquals(raw);
      var m :| 0 <= m < n && raw[..n][m] == '=';
      assert forall k :: 0 <= k < i ==> raw[k] in raw[..i];
    } else {
      FirstEqualsIs(raw, n);
      if a.value.Some? { assert raw[n + 1..] == a.value.value; }
    }
  }

  lemma ColonInRaw(a: Attr)
    ensures ':' in RawAttr(a) <==> ':' in a.name || (a.value.Some? && ':' in a.value.value)
  {
    CaseRoundTrip(a.name);
  }

  function Rest(attrs: seq<Attr>, value: string): string {
    AttrsText(attrs) + ":" + Quote(value)
  }

  lemma RestStep(s: State, attrs: seq<Attr>, value: string)
    requires attrs != [] && !s.quoted && s.part < 2
    ensures Run(s, Rest(attrs, value)) == Run(Close(s).(part := 1), Quote(RawAttr(attrs[0])) + Rest(attrs[1..], value))
  {
    hide Step, Quote, AttrText, Close, RawAttr;
    var more := Quote(RawAttr(attrs[0])) + Rest(attrs[1..], value);
    AttrTextIsQuoted(attrs[0]);
    assert Rest(attrs, value) == ";" + more;
    assert (";" + more)[1..] == more;
    StepOfColon(s);
  }

  lemma RestEnd(s: State, value: string)
    requires !s.quoted && s.part < 2
    ensures Run(s, Rest([], value)) == Close(s).(part := 2, parsed := value)
  {
    hide Step, Quote;
    assert Rest([], value) == ":" + Quote(value);
    assert (":" + Quote(value))[1..] == Quote(value);
    StepOfColon(s);
    RunQuote(Close(s).(part := 2), value);
    assert "" + value == value;
  }

  /** An attribute that is not clean is read as another one. */
  lemma DirtyAttr(s: State, attrs: seq<Attr>, value: string)
    requires attrs != [] && !s.quoted && s.part < 2 && !CleanAttr(attrs[0])
    ensures var r := Run(s, Rest(attrs, value)); r.attrs != Close(s).attrs + attrs
  {
    var a := attrs[0];
    var s1 := Close(s).(part := 1);
    var raw := RawAttr(a);
    RestStep(s, attrs, value);
    hide Quote, Step, AttrsText, RawAttr, SplitAttr;
    ColonInRaw(a);
    var read := if ':' in raw then SplitAttr(raw[..ColonAt(raw)]) else SplitAttr(raw);
    if ':' in raw {
      RunColon(s1, raw, Rest(attrs[1..], value));
      SplitSize(raw[..ColonAt(raw)], a);
      assert "" + raw[..ColonAt(raw)] == raw[..ColonAt(raw)];
    } else {
      RunAppend(s1, Quote(raw), Rest(attrs[1..], value));
      RunQuote(s1, raw);
      assert "" + raw == raw;
      AttrIsKept(s1.(parsed := raw), attrs[1..], value);
      SplitIsExact(a);
    }
    assert Close(s).attrs + [read] <= Run(s, Rest(attrs, value)).attrs;
    assert read != a;
    assert (Close(s).attrs + attrs)[|Close(s).attrs|] == a;
  }

  lemma AttrIsKept(s: State, attrs: seq<Attr>, value: string)
    requires !s.quoted && s.part == 1
    ensures s.attrs + [SplitAttr(s.parsed)] <= Run(s, Rest(attrs, value)).attrs
  {
    hide Step, Quote, AttrsText, RawAttr, SplitAttr;
    if attrs == [] {
      RestEnd(s, value);
    } else {
      RestStep(s, attrs, value);
      RunKeeps(Close(s).(part := 1), Quote(RawAttr(attrs[0])) + Rest(attrs[1..], value));
    }
  }

  /** The state after a clean attribute has been read, but not closed. */
  lemma CleanAttrRead(s: State, attrs: seq<Attr>, value: string)
    requires attrs != [] && !s.quoted && s.part < 2 && CleanAttr(attrs[0])
    ensures var s2 := Close(s).(part := 1, parsed := RawAttr(attrs[0]));
            && Run(s, Rest(attrs, value)) == Run(s2, Rest(attrs[1..], value))
            && Close(s2).attrs == Close(s).attrs + [attrs[0]] && Close(s2).name == Close(s).name
  {
    var s1 := Close(s).(part := 1);
    var raw := RawAttr(attrs[0]);
    RestStep(s, attrs, value);
    ColonInRaw(attrs[0]);
    SplitIsExact(attrs[0]);
    hide Step, Quote, AttrsText, RawAttr, SplitAttr, CleanAttr, Run, Rest;
    RunAppend(s1, Quote(raw), Rest(attrs[1..], value));
    RunQuote(s1, raw);
    assert "" + raw == raw;
  }

  predicate CleanAttrs(attrs: seq<Attr>) {
    forall i :: 0 <= i < |attrs| ==> CleanAttr(attrs[i])
  }

  lemma RestName(s: State, attrs: seq<Attr>, value: string)
    requires !s.quoted && s.part < 2
    ensures Run(s, Rest(attrs, value)).name == Close(s).name
  {
    hide Step, Quote, AttrsText, RawAttr, SplitAttr, Run, Rest;
    if attrs == [] {
      RestEnd(s, value);
    } else {
      RestStep(s, attrs, value);
      RunKeeps(Close(s).(part := 1), Quote(RawAttr(attrs[0])) + Rest(attrs[1..], value));
    }
  }

  lemma {:induction false} RestRoundTrip(s: State, attrs: seq<Attr>, value: string)
    requires !s.quoted && s.part < 2
    ensures var r := Run(s, Rest(attrs, value));
            r.attrs == Close(s).attrs + attrs && r.parsed == value <==> CleanAttrs(attrs)
    decreases attrs
  {
    hide Step, Quote, AttrsText, RawAttr, SplitAttr, CleanAttr, Run, Rest;
    if attrs == [] {
      RestEnd(s, value);
      assert Close(s).attrs + [] == Close(s).attrs;
    } else if !CleanAttr(attrs[0]) {
      DirtyAttr(s, attrs, value);
    } else {
      CleanAttrRead(s, attrs, value);
      RestRoundTrip(Close(s).(part := 1, parsed := RawAttr(attrs[0])), attrs[1..], value);
      assert Close(s).attrs + [attrs[0]] + attrs[1..] == Close(s).attrs + attrs;
      assert forall i :: 0 <= i < |attrs[1..]| ==> attrs[1..][i] == attrs[i + 1];
    }
  }

  /** A name that is not clean is read as another one. */
  lemma NameRoundTrip(name: string, attrs: seq<Attr>, value: string)
    ensures var r := Run(START, Quote(Upper(name)) + Rest(attrs, value));
            && (r.name == Some(name) <==> LowerCase(name) && ':' !in name)
            && (':' !in name ==> r == Run(START.(parsed := Upper(name)), Rest(attrs, value)))
  {
    var upper, more := Upper(name), Rest(attrs, value);
    CaseRoundTrip(name);
    assert |Lower(upper)| == |name|;
    if ':' in upper {
      RunColon(START, upper, more);
      assert "" + upper[..ColonAt(upper)] == upper[..ColonAt(upper)];
      assert |Lower(upper[..ColonAt(upper)])| < |name|;
    } else {
      hide Step, Quote, Run, Rest;
      assert "" + upper == upper;
      RunAppend(START, Quote(upper), more);
      RunQuote(START, upper);
      RestName(START.(parsed := upper), attrs, value);
    }
  }

  /** Parsing the unfolded text gives the line back, whatever its value, if and only
      if the name and the attributes are clean. */
  lemma CodecRoundTrip(l: CardLine)
    ensures Read(Unwrap(Folded(LineText(l), 0))) == Some(l) <==> CleanLine(l)
  {
    LineHasNoBreak(l);
    UnwrapFolded(LineText(l));
    LineTextParts(l);
    NameRoundTrip(l.name, l.attrs, l.value);
    var s := START.(parsed := Upper(l.name));
    RestRoundTrip(s, l.attrs, l.value);
    hide Quote, Run, Rest, Upper, Lower, LowerCase, LineText, Unwrap, Folded, CleanAttr;
    assert Close(s).attrs + l.attrs == l.attrs;
  }

  lemma LineTextParts(l: CardLine)
    ensures LineText(l) == Quote(Upper(l.name)) + Rest(l.attrs, l.value)
  {
    hide Quote, Upper, AttrsText;
    var a, b, c := Quote(Upper(l.name)), AttrsText(l.attrs), Quote(l.value);
    assert a + b + ":" + c == a + (b + ":" + c);
  }

  /** The text that is written never has a physical line of more than 75 octets. */
  lemma WrittenLinesFit(l: CardLine)
    ensures LinesFit(Folded(LineText(l), 0), 75)
  {
    LineHasNoBreak(l);
    FoldedLinesFit(LineText(l), 0);
  }
}
