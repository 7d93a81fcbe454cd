/** `parse_list` of mail/imap_list.py. A byte string is a `string`
    whose characters are the byte values. */
module ImapList {
  import opened Common
  import ModifiedUtf7

  datatype Entry = Entry(name: string, flags: seq<string>, sep: string)

  /** What imaplib hands over for one line: `None` stands for a missing line. */
  type Line = Option<string>

  // ---- Python string helpers --------------------------------------------------

  /** Whitespace of byte strings and of `\s` in a bytes pattern. */
  predicate ByteSpace(c: char) { c == ' ' || 9 <= c as int <= 13 }

  /** ASCII whitespace of `str.split()`. */
  predicate StrSpace(c: char) { ByteSpace(c) || 28 <= c as int <= 31 }

  /** Whitespace of the kind asked for. */
  predicate Space(c: char, text: bool) { if text then StrSpace(c) else ByteSpace(c) }

  function LStrip(s: string, text: bool): (r: string)
    ensures |r| <= |s| && r == s[|s| - |r|..]
    ensures r != "" ==> !Space(r[0], text)
    ensures s != "" && Space(s[0], text) ==> |r| < |s|
  {
    if s != "" && Space(s[0], text) then LStrip(s[1..], text) else s
  }

  function RStrip(s: string, text: bool): string {
    if s != "" && Space(s[|s| - 1], text) then RStrip(s[..|s| - 1], text) else s
  }

  function Strip(s: string): string { RStrip(LStrip(s, false), false) }

  /** `bytes.decode("ascii", "replace")` */
  function Ascii(s: string): string {
    if s == "" then "" else [if s[0] < 128 as char then s[0] else '\U{FFFD}'] + Ascii(s[1..])
  }

  function WordLength(s: string): (n: nat)
    ensures n <= |s|
    ensures forall i :: 0 <= i < n ==> !StrSpace(s[i])
    ensures n < |s| ==> StrSpace(s[n])
  {
    if s == "" || StrSpace(s[0]) then 0 else 1 + WordLength(s[1..])
  }

  /** `str.split()` */
  function Words(s: string): seq<string>
    decreases |s|
  {
    var t := LStrip(s, true);
    if t == "" then [] else [t[..WordLength(t)]] + Words(t[WordLength(t)..])
  }

  // ---- The line pattern ---------------------------------------------------------

  datatype Match = Match(flags: string, sep: string, name: string)

  function MatchName(flags: string, sep: string, rest: string): Option<Match> {
    var name := LStrip(rest, false);
    if |name| == |rest| || name == "" || '\n' in name then None else Some(Match(flags, sep, name))
  }

  /** From the separator on. */
  function MatchSep(flags: string, t: string): Option<Match> {
    if t == "" then None
    else if t[0] == '"' then
      match Find(t[1..], '"')
      case None => None
      case Some(q) => MatchName(flags, t[1..q + 1], t[q + 2..])
    else if "NIL" <= t then MatchName(flags, "", t[3..])
    else None
  }

  /** The regular expression of the module, on a stripped line: flags in
      parentheses, a quoted separator or NIL, and the name. */
  function MatchLine(s: string): Option<Match> {
    if s == "" || s[0] != '(' then None
    else
      match Find(s, ')')
      case None => None
      case Some(k) =>
        var t := LStrip(s[k + 1..], false);
        if |t| == |s[k + 1..]| then None else MatchSep(s[1..k], t)
  }

  function Unquoted(name: string): string {
    if name != "" && name[0] == '"' && name[|name| - 1] == '"' then
      if |name| == 1 then "" else name[1..|name| - 1]
    else name
  }

  function MatchOf(raw: string): Option<Match> { MatchLine(Strip(raw)) }

  /** The entry of a matched line, or the exception its name raises. */
  function EntryFrom(m: Match): Result<Entry> {
    match ModifiedUtf7.Decode(Ascii(Unquoted(Strip(m.name))))
    case Err(e) => Err(e)
    case Ok(name) => Ok(Entry(name, Words(Ascii(m.flags)), Ascii(m.sep)))
  }

  /** What one line contributes: nothing when it is skipped. */
  function EntryOf(line: Line): Option<Result<Entry>> {
    if line.None? || line.value == "" then None
    else
      match MatchOf(line.value)
      case None => None
      case Some(m) => Some(EntryFrom(m))
  }

  /** The entries of the lines that are not skipped, up to the first exception. */
  function Collect(outcomes: seq<Option<Result<Entry>>>): Result<seq<Entry>> {
    if outcomes == [] then Ok([])
    else
      match outcomes[0]
      case None => Collect(outcomes[1..])
      case Some(Err(e)) => Err(e)
      case Some(Ok(entry)) => Prepend([entry], Collect(outcomes[1..]))
  }

  function Outcomes(lines: seq<Line>): seq<Option<Result<Entry>>> {
    seq(|lines|, i requires 0 <= i < |lines| => EntryOf(lines[i]))
  }

  function Parse(lines: seq<Line>): Result<seq<Entry>> { Collect(Outcomes(lines)) }

  method ParseList(lines: seq<Line>) returns (r: Result<seq<Entry>>)
    ensures r == Parse(lines)
  {
    var out := [];
    ghost var rs := Outcomes(lines);
    PrependNothing(Parse(lines));
    assert rs[0..] == rs;
    for i := 0 to |lines|
      invariant Parse(lines) == Prepend(out, Collect(rs[i..]))
    {
      var raw := lines[i];
      assert rs[i] == EntryOf(raw) && rs[i..][1..] == rs[i + 1..];
      if raw.None? || raw.value == "" {
        continue;
      }
      var m := MatchOf(raw.value);
      if m.None? {
        continue;
      }
      var flags := Words(Ascii(m.value.flags));
      var sep := Ascii(m.value.sep);
      var name := Unquoted(Strip(m.value.name));
      var decoded := ModifiedUtf7.ImapUtf7Decode(Ascii(name));
      if decoded.Err? {
        return Err(decoded.error);
      }
      PrependAssociative(out, [Entry(decoded.value, flags, sep)], Collect(rs[i + 1..]));
      out := out + [Entry(decoded.value, flags, sep)];
    }
    assert out + [] == out;
    return Ok(out);
  }

  // ---- Responses as section 7.2.2 of RFC 3501 writes them -------------------------

  predicate FlagText(f: string) {
    f != "" && forall c :: c in f ==> c < 128 as char && c != ')' && !StrSpace(c)
  }

  predicate WellFormed(e: Entry) {
    && (forall i :: 0 <= i < |e.flags| ==> FlagText(e.flags[i]))
    && (e.sep == "" || (|e.sep| == 1 && e.sep[0] < 128 as char && e.sep[0] != '"' && e.sep[0] != '\\'))
    && '"' !in e.name && '\\' !in e.name
  }

  /** Names that can also be sent without quotes. */
  predicate Bare(name: string) {
    var s := ModifiedUtf7.Encode(name);
    s != "" && s[0] != ' ' && s[|s| - 1] != ' '
  }

  function Join(flags: seq<string>): string {
    if flags == [] then "" else if |flags| == 1 then flags[0] else flags[0] + " " + Join(flags[1..])
  }

  function SepText(sep: string): string { if sep == "" then "NIL" else "\"" + sep + "\"" }

  function NameText(name: string, quoted: bool): string {
    if quoted then "\"" + ModifiedUtf7.Encode(name) + "\"" else ModifiedUtf7.Encode(name)
  }

  function Render(e: Entry, quoted: bool): string {
    "(" + Join(e.flags) + ")" + (" " + (SepText(e.sep) + (" " + NameText(e.name, quoted))))
  }

  lemma StripNothing(s: string)
    requires s != "" && !ByteSpace(s[0]) && !ByteSpace(s[|s| - 1])
    ensures Strip(s) == s
  {
  }

  predicate IsBlank(w: string) { forall i :: 0 <= i < |w| ==> ByteSpace(w[i]) }

  /** The blanks one by one; splitting flags knows four more. */
  lemma BlanksExact(c: char)
    ensures ByteSpace(c) <==> c in " \t\n\r" || c == '\U{0B}' || c == '\U{0C}'
    ensures StrSpace(c) <==> ByteSpace(c) || c == '\U{1C}' || c == '\U{1D}' || c == '\U{1E}' || c == '\U{1F}'
  {
  }

  lemma {:induction false} LStripBlank(w: string, s: string)
    requires IsBlank(w) && s != "" && !ByteSpace(s[0])
    ensures LStrip(w + s, false) == s
  {
    if w == "" {
      assert w + s == s;
    } else {
      assert (w + s)[0] == w[0] && (w + s)[1..] == w[1..] + s;
      LStripBlank(w[1..], s);
    }
  }

  lemma {:induction false} RStripBlank(s: string, w: string)
    requires IsBlank(w) && s != "" && !ByteSpace(s[|s| - 1])
    ensures RStrip(s + w, false) == s
  {
    if w == "" {
      assert s + w == s;
    } else {
      var n := |w| - 1;
      assert (s + w)[|s| + n] == w[n] && (s + w)[..|s| + n] == s + w[..n];
      RStripBlank(s, w[..n]);
    }
  }

  lemma {:induction false} FrontBlank(s: string, i: nat)
    requires i < |s| - |LStrip(s, false)|
    ensures ByteSpace(s[i])
  {
    if i > 0 {
      FrontBlank(s[1..], i - 1);
      assert s[1..][i - 1] == s[i];
    }
  }

  /** What is stripped in front is blank. */
  lemma LStripRest(s: string) returns (w: string)
    ensures IsBlank(w) && s == w + LStrip(s, false) && |w| == |s| - |LStrip(s, false)|
  {
    hide ByteSpace;
    w := s[..|s| - |LStrip(s, false)|];
    forall i | 0 <= i < |w| ensures ByteSpace(w[i]) {
      FrontBlank(s, i);
    }
  }

  lemma {:induction false} RStripRest(s: string) returns (w: string)
    ensures IsBlank(w) && s == RStrip(s, false) + w
    ensures RStrip(s, false) != "" ==> !ByteSpace(RStrip(s, false)[|RStrip(s, false)| - 1])
  {
    if s != "" && ByteSpace(s[|s| - 1]) {
      w := RStripRest(s[..|s| - 1]);
      w := w + [s[|s| - 1]];
    } else {
      w := "";
    }
  }

  /** Stripping takes the blanks at both ends away and nothing else. */
  lemma StripRest(s: string) returns (before: string, behind: string)
    ensures IsBlank(before) && IsBlank(behind) && s == before + Strip(s) + behind
    ensures var t := Strip(s); t != "" ==> !ByteSpace(t[0]) && !ByteSpace(t[|t| - 1])
  {
    before := LStripRest(s);
    behind := RStripRest(LStrip(s, false));
    assert Strip(s) != "" ==> Strip(s)[0] == LStrip(s, false)[0];
  }

  lemma {:induction false} AsciiPure(s: string)
    requires forall c :: c in s ==> c < 128 as char
    ensures Ascii(s) == s
  {
    if s != "" {
      assert s[0] in s && forall c :: c in s[1..] ==> c in s;
      AsciiPure(s[1..]);
    }
  }

  lemma WordEnds(f: string, rest: string)
    requires FlagText(f) && (rest == "" || StrSpace(rest[0]))
    ensures WordLength(f + rest) == |f| && !StrSpace((f + rest)[0])
  {
    var s := f + rest;
    forall i | 0 <= i < |f| ensures !StrSpace(s[i]) {
      assert s[i] in f;
    }
    assert rest != "" ==> StrSpace(s[|f|]);
  }

  /** A word in front of a space, or of nothing, is split off whole. */
  lemma WordsStep(f: string, rest: string)
    requires FlagText(f) && (rest == "" || rest[0] == ' ')
    ensures Words(f + rest) == [f] + Words(rest)
  {
    var s := f + rest;
    WordEnds(f, rest);
    assert LStrip(s, true) == s;
    assert s[..|f|] == f && s[|f|..] == rest;
  }

  lemma WordsThenMore(f: string, rest: string)
    requires FlagText(f)
    ensures Words(f + (" " + rest)) == [f] + Words(rest)
  {
    WordsStep(f, " " + rest);
    assert (" " + rest)[1..] == rest;
  }

  lemma WordsNothing(s: string)
    requires s == ""
    ensures Words(s) == []
  {
  }

  lemma SplitOne(f: string)
    requires FlagText(f)
    ensures Words(f) == [f]
  {
    var rest := f[|f|..];
    WordsNothing(rest);
    WordsStep(f, rest);
    assert f + rest == f;
  }

  lemma JoinMore(f: string, flags: seq<string>)
    requires flags != []
    ensures Join([f] + flags) == f + (" " + Join(flags))
  {
    assert ([f] + flags)[1..] == flags;
    assert f + " " + Join(flags) == f + (" " + Join(flags));
  }

  lemma SplitMore(f: string, flags: seq<string>)
    requires FlagText(f) && flags != [] && Words(Join(flags)) == flags
    ensures Words(Join([f] + flags)) == [f] + flags
  {
    WordsThenMore(f, Join(flags));
    JoinMore(f, flags);
  }

  lemma {:induction false} SplitJoined(flags: seq<string>)
    requires forall i :: 0 <= i < |flags| ==> FlagText(flags[i])
    ensures Words(Join(flags)) == flags
  {
    if flags == [] {
      WordsNothing(Join(flags));
    } else {
      var f, tail := flags[0], flags[1..];
      assert FlagText(f) && flags == [f] + tail;
      SplitJoined(tail);
      if tail == [] {
        SplitOne(f);
      } else {
        SplitMore(f, tail);
      }
    }
  }

  lemma {:induction false} JoinedText(flags: seq<string>)
    requires forall i :: 0 <= i < |flags| ==> FlagText(flags[i])
    ensures forall c :: c in Join(flags) ==> c < 128 as char && c != ')'
  {
    if |flags| > 0 {
      assert FlagText(flags[0]);
      JoinedText(flags[1..]);
    }
  }

  /** The flags end at the first closing parenthesis. */
  lemma MatchFlags(flags: string, w: string, t: string)
    requires ')' !in flags && IsBlank(w) && w != "" && t != "" && !ByteSpace(t[0])
    ensures MatchLine("(" + flags + ")" + (w + t)) == MatchSep(flags, t)
  {
    var s := "(" + flags + ")" + (w + t);
    assert s == ("(" + flags) + [')'] + (w + t);
    FindAfter("(" + flags, ')', w + t);
    assert s[1..1 + |flags|] == flags && s[|flags| + 2..] == w + t;
    LStripBlank(w, t);
  }

  lemma MatchNil(flags: string, w: string, name: string)
    requires IsBlank(w) && w != "" && name != "" && !ByteSpace(name[0]) && '\n' !in name
    ensures MatchSep(flags, "NIL" + (w + name)) == Some(Match(flags, "", name))
  {
    var t := "NIL" + (w + name);
    LStripBlank(w, name);
    assert t[3..] == w + name && t[0] == 'N' && "NIL" <= t;
  }

  lemma QuotesEnd(sep: string, rest: string)
    requires '"' !in sep
    ensures var t := ['"'] + sep + ['"'] + rest;
            Find(t[1..], '"') == Some(|sep|) && t[1..|sep| + 1] == sep && t[|sep| + 2..] == rest
  {
    var t := ['"'] + sep + ['"'] + rest;
    assert t[1..] == sep + ['"'] + rest;
    FindAfter(sep, '"', rest);
  }

  lemma MatchQuoted(flags: string, sep: string, w: string, name: string)
    requires '"' !in sep && IsBlank(w) && w != "" && name != "" && !ByteSpace(name[0]) && '\n' !in name
    ensures MatchSep(flags, ['"'] + sep + ['"'] + (w + name)) == Some(Match(flags, sep, name))
  {
    QuotesEnd(sep, w + name);
    LStripBlank(w, name);
    hide LStrip, Find;
  }

  /** How the pieces of a matching line stand in it, with the blanks around them. */
  datatype Layout = Layout(before: string, afterFlags: string, sepText: string, afterSep: string, behind: string)

  predicate SepSpelt(text: string, sep: string) {
    (text == "NIL" && sep == "") || (text == ['"'] + sep + ['"'] && '"' !in sep)
  }

  ghost predicate Spells(line: string, l: Layout, m: Match) {
    && line == l.before + ("(" + m.flags + ")" + (l.afterFlags + (l.sepText + (l.afterSep + m.name)))) + l.behind
    && IsBlank(l.before) && IsBlank(l.afterFlags) && IsBlank(l.afterSep) && IsBlank(l.behind)
    && l.afterFlags != "" && l.afterSep != "" && ')' !in m.flags
    && SepSpelt(l.sepText, m.sep)
    && m.name != "" && !ByteSpace(m.name[0]) && !ByteSpace(m.name[|m.name| - 1]) && '\n' !in m.name
  }

  lemma MatchSpelled(line: string, l: Layout, m: Match)
    requires Spells(line, l, m)
    ensures MatchOf(line) == Some(m)
  {
    var t := l.sepText + (l.afterSep + m.name);
    var s := "(" + m.flags + ")" + (l.afterFlags + t);
    assert s[0] == '(' && s[|s| - 1] == m.name[|m.name| - 1];
    assert line == l.before + (s + l.behind);
    LStripBlank(l.before, s + l.behind);
    RStripBlank(s, l.behind);
    MatchFlags(m.flags, l.afterFlags, t);
    if l.sepText == "NIL" && m.sep == "" {
      MatchNil(m.flags, l.afterSep, m.name);
    } else {
      MatchQuoted(m.flags, m.sep, l.afterSep, m.name);
    }
  }

  /** `rest` is the name of `m` after some blanks. */
  ghost predicate NameSpelt(rest: string, w: string, m: Match) {
    IsBlank(w) && w != "" && rest == w + m.name && m.name != "" && !ByteSpace(m.name[0]) && '\n' !in m.name
  }

  lemma NameSpelled(flags: string, sep: string, rest: string) returns (w: string)
    requires MatchName(flags, sep, rest).Some?
    ensures var m := MatchName(flags, sep, rest).value;
            NameSpelt(rest, w, m) && m.flags == flags && m.sep == sep
  {
    w := LStripRest(rest);
  }

  lemma CutQuotes(t: string, q: nat)
    requires t != "" && t[0] == '"' && q + 1 < |t| && t[1..][q] == '"' && '"' !in t[1..][..q]
    ensures t == (['"'] + t[1..q + 1] + ['"']) + t[q + 2..] && '"' !in t[1..q + 1]
  {
    assert t[1..q + 1] == t[1..][..q];
  }

  lemma QuotedSpelled(flags: string, t: string) returns (w: string)
    requires t != "" && t[0] == '"' && MatchSep(flags, t).Some?
    ensures var m := MatchSep(flags, t).value;
            exists rest :: NameSpelt(rest, w, m) && t == (['"'] + m.sep + ['"']) + rest && '"' !in m.sep && m.flags == flags
  {
    hide NameSpelt, MatchName;
    var q := Find(t[1..], '"').value;
    CutQuotes(t, q);
    w := NameSpelled(flags, t[1..q + 1], t[q + 2..]);
  }

  lemma NilSpelled(flags: string, t: string) returns (w: string)
    requires t != "" && t[0] != '"' && MatchSep(flags, t).Some?
    ensures var m := MatchSep(flags, t).value;
            exists rest :: NameSpelt(rest, w, m) && t == "NIL" + rest && m.sep == "" && m.flags == flags
  {
    hide NameSpelt, MatchName;
    w := NameSpelled(flags, "", t[3..]);
    assert t == "NIL" + t[3..];
  }

  lemma SepSpelled(flags: string, t: string) returns (sepText: string, w: string)
    requires MatchSep(flags, t).Some?
    ensures var m := MatchSep(flags, t).value;
            && NameSpelt(w + m.name, w, m) && t == sepText + (w + m.name) && m.flags == flags
            && SepSpelt(sepText, m.sep)
  {
    if t[0] == '"' {
      w := QuotedSpelled(flags, t);
      hide MatchSep;
      sepText := ['"'] + MatchSep(flags, t).value.sep + ['"'];
    } else {
      w := NilSpelled(flags, t);
      hide MatchSep;
      sepText := "NIL";
    }
  }

  lemma CutFlags(s: string, k: nat)
    requires 1 <= k < |s| && s[0] == '(' && s[k] == ')' && ')' !in s[..k]
    ensures s == ['('] + s[1..k] + [')'] + s[k + 1..] && ')' !in s[1..k]
  {
    assert s[1..k] == s[..k][1..];
  }

  lemma FlagsSpelled(s: string, m: Match) returns (w: string, t: string)
    requires MatchLine(s) == Some(m)
    ensures IsBlank(w) && w != "" && ')' !in m.flags && s == ['('] + m.flags + [')'] + (w + t)
    ensures MatchSep(m.flags, t) == Some(m)
  {
    hide MatchSep;
    var k := Find(s, ')').value;
    CutFlags(s, k);
    w := LStripRest(s[k + 1..]);
    t := LStrip(s[k + 1..], false);
    FlagsKept(s[1..k], t, m);
  }

  lemma FlagsKept(flags: string, t: string, m: Match)
    requires MatchSep(flags, t) == Some(m)
    ensures m.flags == flags
  {
    var sepText, w := SepSpelled(flags, t);
  }

  lemma MatchedSpells(line: string, m: Match) returns (l: Layout)
    requires MatchOf(line) == Some(m)
    ensures Spells(line, l, m)
  {
    hide MatchLine, MatchSep, Strip;
    var s := Strip(line);
    var before, behind := StripRest(line);
    var afterFlags, t := FlagsSpelled(s, m);
    var sepText, afterSep := SepSpelled(m.flags, t);
    l := Layout(before, afterFlags, sepText, afterSep, behind);
    assert s[|s| - 1] == t[|t| - 1] == m.name[|m.name| - 1];
    assert "(" == ['('] && ")" == [')'];
  }

  /** Exactly the lines that match, with what the pattern takes from them: flags up to the
      first ")", a quoted separator or NIL, and a name on one line, with blanks between. */
  lemma MatchExact(line: string, m: Match)
    ensures MatchOf(line) == Some(m) <==> exists l :: Spells(line, l, m)
  {
    hide MatchOf, Spells;
    if MatchOf(line) == Some(m) {
      var l := MatchedSpells(line, m);
    } else if l :| Spells(line, l, m) {
      MatchSpelled(line, l, m);
    }
  }

  /** Only a pair of quotes around a name is taken away; a lone quote is both of them. */
  lemma UnquotedExact(name: string, x: string)
    ensures Unquoted(name) == x <==>
            || name == "\"" + x + "\""
            || (name == "\"" && x == "")
            || (name == x && (name == "" || name[0] != '"' || name[|name| - 1] != '"'))
  {
    if name == "\"" + x + "\"" {
      assert name[1..|name| - 1] == x;
    }
  }

  /** Bytes beyond ASCII are read as the replacement character, one for one. */
  lemma {:induction false} AsciiExact(s: string, r: string)
    ensures Ascii(s) == r <==>
            |s| == |r| && forall i :: 0 <= i < |s| ==> if s[i] as int < 128 then r[i] == s[i] else r[i] as int == 0xFFFD
  {
    if s != "" {
      if r != "" {
        AsciiExact(s[1..], r[1..]);
        assert Ascii(s) == r <==> Ascii(s)[0] == r[0] && Ascii(s)[1..] == r[1..];
        assert forall i :: 0 < i < |s| ==> s[i] == s[1..][i - 1];
        assert forall i :: 0 < i < |r| ==> r[i] == r[1..][i - 1];
      }
    }
  }

  lemma UnquotedText(s: string, quoted: bool)
    requires '"' !in s && (quoted || s != "")
    ensures Unquoted(if quoted then "\"" + s + "\"" else s) == s
  {
    var t := if quoted then "\"" + s + "\"" else s;
    if quoted {
      assert t[1..|t| - 1] == s;
    } else {
      assert s[0] in s;
    }
  }

  lemma NameTextReadBack(name: string, quoted: bool)
    requires '"' !in name
    requires quoted || Bare(name)
    ensures var t := NameText(name, quoted);
            t != "" && !ByteSpace(t[0]) && !ByteSpace(t[|t| - 1]) && '\n' !in t
            && ModifiedUtf7.Decode(Ascii(Unquoted(Strip(t)))) == Ok(name)
  {
    hide Strip, Ascii, Unquoted, ModifiedUtf7.Encode, ModifiedUtf7.Decode;
    var s, t := ModifiedUtf7.Encode(name), NameText(name, quoted);
    ModifiedUtf7.EncodeIsPrintable(name);
    ModifiedUtf7.RoundTrip(name);
    ModifiedUtf7.EncodeOrigin(name, '"');
    assert forall c :: c in t ==> ModifiedUtf7.Printable(c);
    assert t[0] in t && t[|t| - 1] in t;
    StripNothing(t);
    UnquotedText(s, quoted);
    AsciiPure(s);
  }

  /** The pattern takes a rendered line apart again. */
  lemma MatchRendered(flags: string, sep: string, t: string, line: string)
    requires ')' !in flags && (sep == "" || (|sep| == 1 && sep[0] != '"'))
    requires t != "" && !ByteSpace(t[0]) && !ByteSpace(t[|t| - 1]) && '\n' !in t
    requires line == "(" + flags + ")" + (" " + (SepText(sep) + (" " + t)))
    ensures MatchOf(line) == Some(Match(flags, sep, t))
  {
    assert line == "" + line + "";
    assert Spells(line, Layout("", " ", SepText(sep), " ", ""), Match(flags, sep, t));
    MatchSpelled(line, Layout("", " ", SepText(sep), " ", ""), Match(flags, sep, t));
  }

  lemma EntryOfMatched(line: string, m: Match)
    requires line != "" && MatchOf(line) == Some(m)
    ensures EntryOf(Some(line)) == Some(EntryFrom(m))
  {
  }

  lemma EntryFromParts(m: Match, e: Entry)
    requires ModifiedUtf7.Decode(Ascii(Unquoted(Strip(m.name)))) == Ok(e.name)
    requires Words(Ascii(m.flags)) == e.flags && Ascii(m.sep) == e.sep
    ensures EntryFrom(m) == Ok(e)
  {
  }

  lemma RenderedFlags(flags: seq<string>)
    requires forall i :: 0 <= i < |flags| ==> FlagText(flags[i])
    ensures Words(Ascii(Join(flags))) == flags
  {
    SplitJoined(flags);
    JoinedText(flags);
    AsciiPure(Join(flags));
  }

  /** A rendered line is read back as exactly its entry. */
  lemma LineRoundTrip(e: Entry, quoted: bool)
    requires WellFormed(e)
    requires quoted || Bare(e.name)
    ensures EntryOf(Some(Render(e, quoted))) == Some(Ok(e))
  {
    hide EntryOf, EntryFrom, MatchOf, Words, Ascii, Strip;
    var line, m := Render(e, quoted), Match(Join(e.flags), e.sep, NameText(e.name, quoted));
    NameTextReadBack(e.name, quoted);
    JoinedText(e.flags);
    RenderedFlags(e.flags);
    AsciiPure(e.sep);
    MatchRendered(m.flags, m.sep, m.name, line);
    EntryOfMatched(line, m);
    EntryFromParts(m, e);
  }

  // ---- Whole responses -------------------------------------------------------------

  /** A response is a mix of well-formed entries and lines the parser skips. */
  datatype Item = Listed(entry: Entry, quoted: bool) | Noise(line: Line)

  ghost predicate Legal(item: Item) {
    match item
    case Listed(e, quoted) => WellFormed(e) && (quoted || Bare(e.name))
    case Noise(line) => EntryOf(line).None?
  }

  function LineOf(item: Item): Line {
    match item
    case Listed(e, quoted) => Some(Render(e, quoted))
    case Noise(line) => line
  }

  function Lines(items: seq<Item>): seq<Line> {
    if items == [] then [] else [LineOf(items[0])] + Lines(items[1..])
  }

  function Entries(items: seq<Item>): seq<Entry> {
    if items == [] then []
    else (if items[0].Listed? then [items[0].entry] else []) + Entries(items[1..])
  }

  /** Every listed folder comes back, in order, whatever lines stand between. */
  lemma {:induction false} ListRoundTrip(items: seq<Item>)
    requires forall item :: item in items ==> Legal(item)
    ensures Parse(Lines(items)) == Ok(Entries(items))
  {
    if items != [] {
      var item, tail := items[0], items[1..];
      assert Legal(item);
      ListRoundTrip(tail);
      OutcomesCons(LineOf(item), Lines(tail));
      if item.Listed? {
        LineRoundTrip(item.entry, item.quoted);
      } else {
        assert [] + Entries(tail) == Entries(tail);
      }
    }
  }

  lemma OutcomesCons(line: Line, rest: seq<Line>)
    ensures Outcomes([line] + rest) == [EntryOf(line)] + Outcomes(rest)
    ensures Parse([line] + rest) == Collect([EntryOf(line)] + Outcomes(rest))
  {
    hide EntryOf;
  }

  /** A line whose name cannot be decoded. */
  predicate Undecodable(line: Line) { EntryOf(line).Some? && EntryOf(line).value.Err? }

  /** Only an undecodable name makes the whole listing fail; it is not skipped. */
  lemma ListFailsExactly(lines: seq<Line>)
    ensures Parse(lines).Ok? <==> forall i :: 0 <= i < |lines| ==> !Undecodable(lines[i])
  {
    hide EntryOf;
    var rs := Outcomes(lines);
    CollectFailsExactly(rs);
    assert forall i :: 0 <= i < |lines| ==> (Undecodable(lines[i]) <==> rs[i].Some? && rs[i].value.Err?);
  }

  lemma {:induction false} CollectFailsExactly(rs: seq<Option<Result<Entry>>>)
    ensures Collect(rs).Ok? <==> forall i :: 0 <= i < |rs| ==> rs[i].None? || rs[i].value.Ok?
  {
    if rs != [] {
      var tail := rs[1..];
      CollectFailsExactly(tail);
      assert forall i :: 0 < i < |rs| ==> rs[i] == tail[i - 1];
    }
  }

  /** Such a line can arrive: one symbol of a shifted run is no byte. */
  lemma UndecodableLine()
    ensures Undecodable(Some("() NIL &A-")) && Parse([Some("() NIL &A-")]).Err?
  {
    hide EntryOf, EntryFrom, MatchOf;
    var t, line := "&A-", "() NIL &A-";
    assert line == "(" + "" + ")" + (" " + (SepText("") + (" " + t)));
    MatchRendered("", "", t, line);
    EntryOfMatched(line, Match("", "", t));
    UndecodableName(Match("", "", t));
    OutcomesCons(Some(line), []);
  }

  lemma UndecodableName(m: Match)
    requires m.name == ['&', 'A', '-']
    ensures EntryFrom(m).Err?
  {
    StripNothing(m.name);
    AsciiPure(m.name);
    ModifiedUtf7.LoneSymbolFails();
  }
}
