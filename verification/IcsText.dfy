/** Escaping of iCalendar TEXT values (section 3.3.11 of RFC 5545). */
module IcsText {
  import opened Prelude

  /** Python's `s.replace(pat, rep)`: leftmost matches, not overlapping. */
  function ReplaceAll(s: string, pat: string, rep: string): string
    requires pat != ""
  {
    if s == "" then ""
    else if pat <= s then rep + ReplaceAll(s[|pat|..], pat, rep)
    else [s[0]] + ReplaceAll(s[1..], pat, rep)
  }

  function EscapeSpecials(s: string): string {
    ReplaceAll(ReplaceAll(ReplaceAll(s, "\\", "\\\\"), ";", "\\;"), ",", "\\,")
  }

  function EscapeBreaks(s: string): string {
    ReplaceAll(ReplaceAll(ReplaceAll(s, "\r\n", "\\n"), "\n", "\\n"), "\r", "\\n")
  }

  /** The six chained replacements. */
  function Escape(text: Option<string>): string {
    EscapeBreaks(EscapeSpecials(if text.Some? then text.value else ""))
  }

  /** How long the first unit of the text is: CRLF is one unit, any other character is one. */
  function UnitLength(s: string): nat
    requires s != ""
  {
    if s[0] == '\r' && |s| > 1 && s[1] == '\n' then 2 else 1
  }

  function EscapeUnit(s: string): string
    requires s != ""
  {
    match s[0]
    case '\\' => "\\\\"
    case ';' => "\\;"
    case ',' => "\\,"
    case '\r' => "\\n"
    case '\n' => "\\n"
    case c => [c]
  }

  /** The same escaping as one pass from left to right. */
  function OnePass(s: string): string {
    if s == "" then "" else EscapeUnit(s) + OnePass(s[UnitLength(s)..])
  }

  predicate IsSeparator(c: char) {
    c == ';' || c == ','
  }

  predicate IsBreak(c: char) {
    c == '\r' || c == '\n'
  }

  /** The control characters, which TEXT cannot hold in any form, except HTAB. */
  predicate IsControl(c: char) {
    c <= '\U{8}' || '\n' <= c <= '\U{1f}' || c == '\U{7f}'
  }

  /** Reading a TEXT value back; `None` for text that the grammar does not allow. */
  function Decode(s: string): Option<string> {
    if s == "" then Some("")
    else if s[0] == '\\' then
      if |s| == 1 then None
      else
        var rest := Decode(s[2..]);
        if rest.None? then None
        else if s[1] == '\\' || IsSeparator(s[1]) then Some([s[1]] + rest.value)
        else if s[1] == 'n' || s[1] == 'N' then Some(['\n'] + rest.value)
        else None
    else if IsSeparator(s[0]) || IsControl(s[0]) then None
    else
      var rest := Decode(s[1..]);
      if rest.None? then None else Some([s[0]] + rest.value)
  }

  /** Every line break becomes a single LF. */
  function Normalized(s: string): string {
    if s == "" then ""
    else [if s[0] == '\r' then '\n' else s[0]] + Normalized(s[UnitLength(s)..])
  }

  /** Normalising is the two replacements of the usual definition. */
  lemma {:induction false} NormalizedMeans(s: string)
    ensures Normalized(s) == ReplaceAll(ReplaceAll(s, "\r\n", "\n"), "\r", "\n")
  {
    if s != "" {
      var t := s[UnitLength(s)..];
      NormalizedMeans(t);
      var rest := ReplaceAll(t, "\r\n", "\n");
      if UnitLength(s) == 2 {
        assert "\r\n" <= s;
      } else {
        assert !("\r\n" <= s);
        assert ReplaceAll(s, "\r\n", "\n") == [s[0]] + rest;
        if s[0] == '\r' {
          assert [s[0]] == "\r";
          Replaces("\r", rest, "\n");
        } else {
          PassesOver([s[0]], rest, "\r", "\n");
        }
      }
    }
  }

  /** A replacement passes over a prefix in which its pattern cannot start. */
  lemma {:induction false} PassesOver(u: string, t: string, pat: string, rep: string)
    requires pat != "" && pat[0] !in u
    ensures ReplaceAll(u + t, pat, rep) == u + ReplaceAll(t, pat, rep)
  {
    if u == "" {
      assert u + t == t;
    } else {
      PassesOver(u[1..], t, pat, rep);
      var s := u + t;
      assert s[0] == u[0] != pat[0];
      assert s[1..] == u[1..] + t;
      assert u + ReplaceAll(t, pat, rep) == [u[0]] + (u[1..] + ReplaceAll(t, pat, rep));
    }
  }

  lemma Replaces(pat: string, t: string, rep: string)
    requires pat != ""
    ensures ReplaceAll(pat + t, pat, rep) == rep + ReplaceAll(t, pat, rep)
  {
    assert (pat + t)[|pat|..] == t;
  }

  lemma SpecialsOfUnit(s: string)
    requires s != ""
    ensures EscapeSpecials(s)
         == (if IsBreak(s[0]) then s[..UnitLength(s)] else EscapeUnit(s)) + EscapeSpecials(s[UnitLength(s)..])
  {
    var u, t := s[..UnitLength(s)], s[UnitLength(s)..];
    assert s == u + t;
    var t1 := ReplaceAll(t, "\\", "\\\\");
    var t2 := ReplaceAll(t1, ";", "\\;");
    if s[0] == '\\' {
      Replaces("\\", t, "\\\\");
      PassesOver("\\\\", t1, ";", "\\;");
      PassesOver("\\\\", t2, ",", "\\,");
    } else {
      PassesOver(u, t, "\\", "\\\\");
      if s[0] == ';' {
        Replaces(";", t1, "\\;");
        PassesOver("\\;", t2, ",", "\\,");
      } else {
        PassesOver(u, t1, ";", "\\;");
        if s[0] == ',' {
          Replaces(",", t2, "\\,");
        } else {
          PassesOver(u, t2, ",", "\\,");
        }
      }
    }
  }

  /** What follows a unit that needs no break escaping: escaping the specials never creates a LF. */
  lemma SpecialsStart(s: string)
    ensures EscapeSpecials(s) == "" <==> s == ""
    ensures s != "" && s[0] != '\n' ==> EscapeSpecials(s)[0] != '\n'
  {
    if s != "" {
      SpecialsOfUnit(s);
    }
  }

  lemma BreaksOfCrLf(t: string)
    ensures EscapeBreaks("\r\n" + t) == "\\n" + EscapeBreaks(t)
  {
    var t1 := ReplaceAll(t, "\r\n", "\\n");
    Replaces("\r\n", t, "\\n");
    PassesOver("\\n", t1, "\n", "\\n");
    PassesOver("\\n", ReplaceAll(t1, "\n", "\\n"), "\r", "\\n");
  }

  lemma BreaksOfCr(t: string)
    requires t == "" || t[0] != '\n'
    ensures EscapeBreaks("\r" + t) == "\\n" + EscapeBreaks(t)
  {
    var t1 := ReplaceAll(t, "\r\n", "\\n");
    var s := "\r" + t;
    assert s[1..] == t && (t != "" ==> s[1] != "\r\n"[1]);
    PassesOver("\r", t1, "\n", "\\n");
    Replaces("\r", ReplaceAll(t1, "\n", "\\n"), "\\n");
  }

  lemma BreaksOfLf(t: string)
    ensures EscapeBreaks("\n" + t) == "\\n" + EscapeBreaks(t)
  {
    var t1 := ReplaceAll(t, "\r\n", "\\n");
    PassesOver("\n", t, "\r\n", "\\n");
    Replaces("\n", t1, "\\n");
    PassesOver("\\n", ReplaceAll(t1, "\n", "\\n"), "\r", "\\n");
  }

  lemma BreaksOfOther(e: string, t: string)
    requires '\r' !in e && '\n' !in e
    ensures EscapeBreaks(e + t) == e + EscapeBreaks(t)
  {
    var t1 := ReplaceAll(t, "\r\n", "\\n");
    PassesOver(e, t, "\r\n", "\\n");
    PassesOver(e, t1, "\n", "\\n");
    PassesOver(e, ReplaceAll(t1, "\n", "\\n"), "\r", "\\n");
  }

  lemma BreaksOfUnit(s: string, t: string)
    requires s != "" && (s[0] == '\r' && UnitLength(s) == 1 ==> t == "" || t[0] != '\n')
    ensures EscapeBreaks((if IsBreak(s[0]) then s[..UnitLength(s)] else EscapeUnit(s)) + t)
         == EscapeUnit(s) + EscapeBreaks(t)
  {
    var u := s[..UnitLength(s)];
    if s[0] == '\r' && UnitLength(s) == 2 {
      assert u == "\r\n";
      BreaksOfCrLf(t);
    } else if s[0] == '\r' {
      assert u == "\r";
      BreaksOfCr(t);
    } else if s[0] == '\n' {
      assert u == "\n";
      BreaksOfLf(t);
    } else {
      BreaksOfOther(EscapeUnit(s), t);
    }
  }

  /** The chain of replacements is one left-to-right pass. */
  lemma {:induction false} ChainIsOnePass(s: string)
    ensures Escape(Some(s)) == OnePass(s)
  {
    if s != "" {
      var t := s[UnitLength(s)..];
      SpecialsOfUnit(s);
      SpecialsStart(t);
      BreaksOfUnit(s, EscapeSpecials(t));
      ChainIsOnePass(t);
    }
  }

  /** A control character that is not a line break, which escaping leaves as it is. */
  predicate Unprintable(c: char) {
    IsControl(c) && !IsBreak(c)
  }

  predicate Printable(s: string) {
    forall c | c in s :: !Unprintable(c)
  }

  lemma DecodeUnit(s: string, rest: string)
    requires s != ""
    ensures Decode(EscapeUnit(s) + rest)
         == if Unprintable(s[0]) || Decode(rest).None? then None
            else Some([if s[0] == '\r' then '\n' else s[0]] + Decode(rest).value)
  {
    var e := EscapeUnit(s) + rest;
    if |EscapeUnit(s)| == 2 {
      assert e[2..] == rest;
    } else {
      assert e[1..] == rest;
    }
  }

  lemma {:induction false} DecodeOnePass(s: string)
    ensures Decode(OnePass(s)) == if Printable(s) then Some(Normalized(s)) else None
  {
    if s != "" {
      var t := s[UnitLength(s)..];
      DecodeOnePass(t);
      DecodeUnit(s, OnePass(t));
      assert s == s[..UnitLength(s)] + t;
      assert forall c :: c in s <==> c == s[0] || c in t || (UnitLength(s) == 2 && c == '\n');
    }
  }

  /** A correct printer exactly for the texts that can be printed: if line breaks are the only
      control characters besides HTAB, a reader that follows the RFC gets the text back, with CRLF
      and CR read as LF; with any other control character, and only then, the output is invalid. */
  lemma EscapeRoundTrips(s: string)
    ensures Decode(Escape(Some(s))) == if Printable(s) then Some(Normalized(s)) else None
    ensures Decode(Escape(None)) == Some("")
  {
    ChainIsOnePass(s);
    DecodeOnePass(s);
    ChainIsOnePass("");
  }

  /** One bell character is enough: it is passed through, and the output is invalid. */
  lemma BellIsNotEscaped()
    ensures Escape(Some("\U{7}")) == "\U{7}" && Decode("\U{7}") == None
  {
    ChainIsOnePass("\U{7}");
    assert "\U{7}"[1..] == "";
  }

  /** How many backslashes stand directly before position `i`. */
  function Backslashes(s: string, i: nat): nat
    requires i <= |s|
  {
    if i == 0 || s[i - 1] != '\\' then 0 else 1 + Backslashes(s, i - 1)
  }

  /** No raw line break, and every separator behind an odd run of backslashes. */
  predicate Clean(s: string) {
    forall i | 0 <= i < |s| :: !IsBreak(s[i]) && (IsSeparator(s[i]) ==> Backslashes(s, i) % 2 == 1)
  }

  lemma {:induction false} BackslashesShift(u: string, t: string, i: nat)
    requires i <= |t|
    ensures Backslashes(u + t, |u| + i)
         == Backslashes(t, i) + if Backslashes(t, i) == i then Backslashes(u, |u|) else 0
  {
    if i == 0 {
      BackslashesPrefix(u, t, |u|);
    } else {
      BackslashesShift(u, t, i - 1);
    }
  }

  lemma {:induction false} BackslashesPrefix(u: string, t: string, i: nat)
    requires i <= |u|
    ensures Backslashes(u + t, i) == Backslashes(u, i)
  {
    if i > 0 {
      BackslashesPrefix(u, t, i - 1);
    }
  }

  lemma CleanConcat(u: string, t: string)
    requires Clean(u) && Clean(t) && Backslashes(u, |u|) % 2 == 0
    ensures Clean(u + t)
  {
    var s := u + t;
    forall i | 0 <= i < |s| ensures !IsBreak(s[i]) && (IsSeparator(s[i]) ==> Backslashes(s, i) % 2 == 1) {
      if i < |u| {
        BackslashesPrefix(u, t, i);
      } else {
        BackslashesShift(u, t, i - |u|);
      }
    }
  }

  lemma UnitIsClean(s: string)
    requires s != ""
    ensures Clean(EscapeUnit(s)) && Backslashes(EscapeUnit(s), |EscapeUnit(s)|) % 2 == 0
  {
    var e := EscapeUnit(s);
    if |e| == 2 {
      assert Backslashes(e, 0) == 0 && Backslashes(e, 1) == 1;
    }
  }

  lemma {:induction false} OnePassIsClean(s: string)
    ensures Clean(OnePass(s))
  {
    if s != "" {
      UnitIsClean(s);
      OnePassIsClean(s[UnitLength(s)..]);
      CleanConcat(EscapeUnit(s), OnePass(s[UnitLength(s)..]));
    }
  }

  /** The escaped value has no raw line break and no unescaped separator. */
  lemma EscapedIsClean(s: string)
    ensures Clean(Escape(Some(s)))
  {
    ChainIsOnePass(s);
    OnePassIsClean(s);
  }
}
