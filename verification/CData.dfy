/**
 Text as CDATA sections (enigma2/main/xmlgenerator.cpp), against a reader that
 follows section 2.7 of the W3C Recommendation XML 1.0: a section ends at the
 first "]]>" after its opening.
 */
module CData {
  import opened Sequences

  const OPEN: string := "<![CDATA["
  const CLOSE: string := "]]>"
  const SPLIT: string := "]]]]><![CDATA[>"

  predicate StartsWith(s: string, p: string) {
    |p| <= |s| && s[..|p|] == p
  }

  /** The text begins with "]]>". */
  predicate AtClose(s: string) {
    |s| >= 3 && s[0] == ']' && s[1] == ']' && s[2] == '>'
  }

  lemma AtCloseIsPrefix(s: string)
    ensures AtClose(s) <==> StartsWith(s, CLOSE)
  {
  }

  /** Every "]]>" from left to right replaced by one that is spread over two sections. */
  function Escape(s: string): string {
    if s == "" then ""
    else if AtClose(s) then SPLIT + Escape(s[3..])
    else [s[0]] + Escape(s[1..])
  }

  // -------------------------------------------------------------- the reader

  /** The character data of consecutive sections, read from inside the first one. */
  function Inside(t: string): Option<string> {
    if t == "" then None
    else if AtClose(t) then
      if t[3..] == "" then Some("")
      else if StartsWith(t[3..], OPEN) then Inside(t[3 + |OPEN|..])
      else None
    else
      match Inside(t[1..])
      case None => None
      case Some(data) => Some([t[0]] + data)
  }

  function ReadSections(t: string): Option<string> {
    if StartsWith(t, OPEN) then Inside(t[|OPEN|..]) else None
  }

  // ---------------------------------------------------------------- lemmas

  /** Escaping never changes the first character, and behind the text comes a bracket. */
  lemma FirstChar(s: string)
    ensures var t := Escape(s) + CLOSE;
            t[0] == if s == "" then ']' else s[0]
  {
  }

  /** Where the text does not close the section, the escaped text does not either. */
  lemma NoFalseClose(s: string)
    requires s != "" && !AtClose(s)
    ensures !AtClose(Escape(s) + CLOSE)
  {
    var t := Escape(s[1..]) + CLOSE;
    assert Escape(s) + CLOSE == [s[0]] + t;
    FirstChar(s[1..]);
    if s[0] == ']' && t[0] == ']' && |s| > 1 {
      if AtClose(s[1..]) {
        assert t[1] == ']';
      } else {
        assert t == [s[1]] + (Escape(s[2..]) + CLOSE);
        FirstChar(s[2..]);
      }
    }
  }

  function Prepend(p: string, o: Option<string>): Option<string> {
    if o == None then None else Some(p + o.value)
  }

  lemma ReadChar(c: char, t: string)
    requires !AtClose([c] + t)
    ensures Inside([c] + t) == Prepend([c], Inside(t))
  {
  }

  lemma ReadEnd()
    ensures Inside(Escape("") + CLOSE) == Some("")
  {
  }

  /** A section that ends where the next one begins. */
  lemma ReadSeam(t: string)
    ensures Inside(CLOSE + OPEN + t) == Inside(t)
  {
    var u := CLOSE + OPEN + t;
    assert AtClose(u) && u[3..] == OPEN + t && u[3 + |OPEN|..] == t;
  }

  lemma PrependTwice(c: char, p: string, o: Option<string>)
    ensures Prepend([c], Prepend(p, o)) == Prepend([c] + p, o)
  {
    if o != None {
      assert [c] + (p + o.value) == [c] + p + o.value;
    }
  }

  /** A bracket before two brackets, or a bracket before a third one, does not close anything. */
  lemma NotClosed(c: char, t: string)
    requires c != ']' || (|t| >= 2 && t[1] == ']')
    ensures !AtClose([c] + t)
  {
  }

  lemma SplitIs(rest: string)
    ensures SPLIT + rest == [']'] + ([']'] + (CLOSE + OPEN + (['>'] + rest)))
    ensures [']'] + ([']'] + ['>']) == CLOSE
  {
  }

  /** The replacement is read as the three characters it stands for. */
  lemma ReadSplit(rest: string)
    ensures Inside(SPLIT + rest) == Prepend(CLOSE, Inside(rest))
  {
    hide Inside, AtClose, Prepend;
    var last := ['>'] + rest;
    var seam := CLOSE + OPEN + last;
    var o := Inside(rest);
    NotClosed('>', rest);
    ReadChar('>', rest);
    ReadSeam(last);
    NotClosed(']', seam);
    ReadChar(']', seam);
    NotClosed(']', [']'] + seam);
    ReadChar(']', [']'] + seam);
    PrependTwice(']', ['>'], o);
    PrependTwice(']', [']'] + ['>'], o);
    SplitIs(rest);
  }

  lemma ClosePrefix(s: string)
    requires AtClose(s)
    ensures |s| >= 3 && CLOSE + s[3..] == s && Escape(s) == SPLIT + Escape(s[3..])
  {
    AtCloseIsPrefix(s);
  }

  /** For every text, the escaped text followed by the closing bracket is read back as the text. */
  lemma {:induction false} InsideEscaped(s: string)
    ensures Inside(Escape(s) + CLOSE) == Some(s)
    decreases |s|
  {
    hide Inside, AtClose;
    if s == "" {
      ReadEnd();
    } else if AtClose(s) {
      ClosePrefix(s);
      var rest := Escape(s[3..]) + CLOSE;
      InsideEscaped(s[3..]);
      assert Escape(s) + CLOSE == SPLIT + rest;
      ReadSplit(rest);
    } else {
      NoFalseClose(s);
      InsideEscaped(s[1..]);
      assert Escape(s) + CLOSE == [s[0]] + (Escape(s[1..]) + CLOSE);
      ReadChar(s[0], Escape(s[1..]) + CLOSE);
      assert [s[0]] + s[1..] == s;
    }
  }

  /** The round trip of `cDataEscape`. */
  lemma EscapeRoundTrip(s: string)
    ensures ReadSections("<![CDATA[" + Escape(s) + "]]>") == Some(s)
  {
    InsideEscaped(s);
    assert (OPEN + Escape(s) + CLOSE)[|OPEN|..] == Escape(s) + CLOSE;
  }

  ghost predicate Plain(s: string) {
    forall k :: 0 <= k <= |s| - 3 ==> !(s[k] == ']' && s[k + 1] == ']' && s[k + 2] == '>')
  }

  lemma PlainIsCopied(s: string)
    requires Plain(s)
    ensures Escape(s) == s
  {
    forall k | 0 <= k < |s| ensures !AtClose(s[k..]) {
      NotClosing(s, "", k);
    }
    hide Escape, Plain;
    EscapeCopies(s, 0, |s|);
    EscapeOfNothing();
    assert s[0..] == s && s[0..|s|] == s && s[|s|..] == "";
  }

  /** No "]]>" begins within a plain text, whether it stands alone or before one. */
  lemma NotClosing(s: string, t: string, k: nat)
    requires Plain(s) && k < |s|
    ensures !AtClose(s[k..]) && !AtClose((s + CLOSE + t)[k..])
  {
    var u := s + CLOSE + t;
    assert u[k] == s[k] && u[k + 1] == (s + CLOSE)[k + 1] && u[k + 2] == (s + CLOSE)[k + 2];
  }

  lemma PlainBeforeClose(s: string, t: string)
    requires Plain(s)
    ensures Escape(s + CLOSE + t) == s + Escape(CLOSE + t)
  {
    hide Escape, AtClose;
    var u := s + CLOSE + t;
    forall k | 0 <= k < |s| ensures !AtClose(u[k..]) {
      NotClosing(s, t, k);
    }
    hide Plain;
    EscapeCopies(u, 0, |s|);
    assert u[0..] == u && u[0..|s|] == s && u[|s|..] == CLOSE + t;
  }

  lemma EscapeAround(s: string, t: string)
    requires Plain(s) && Plain(t)
    ensures Escape(s + CLOSE + t) == s + SPLIT + t
  {
    hide Escape, AtClose;
    PlainBeforeClose(s, t);
    EscapeOfClose(t);
    PlainIsCopied(t);
  }

  /** A text with one "]]>" is written in two sections, which part before the last character of these three. */
  lemma EscapeOnce(s: string, t: string)
    requires (forall k :: 0 <= k <= |s| - 3 ==> !(s[k] == ']' && s[k + 1] == ']' && s[k + 2] == '>'))
    requires (forall k :: 0 <= k <= |t| - 3 ==> !(t[k] == ']' && t[k + 1] == ']' && t[k + 2] == '>'))
    ensures Escape(s + "]]>" + t) == s + "]]]]><![CDATA[>" + t
  {
    hide Escape, AtClose;
    EscapeAround(s, t);
  }

  // -------------------------------------------------- what reaches the file

  /** What "%s" prints of a string handed over by `c_str()`: everything before the first NUL. */
  function CString(s: string): string {
    if s == "" || s[0] == '\0' then "" else [s[0]] + CString(s[1..])
  }

  /** Between the tags: a section that starts with a line feed of its own. */
  function Written(s: string): string {
    OPEN + "\n" + CString(Escape(s)) + CLOSE
  }

  lemma {:induction false} CutBehind(p: string, t: string)
    requires '\0' !in p
    ensures CString(p + t) == p + CString(t)
    decreases |p|
  {
    if p == "" {
      assert p + t == t;
    } else {
      assert (p + t)[1..] == p[1..] + t;
      CutBehind(p[1..], t);
    }
  }

  lemma {:induction false} CutIsPrefix(s: string)
    ensures CString(s) <= s && '\0' !in CString(s)
    ensures CString(s) == s <==> '\0' !in s
    decreases |s|
  {
    if s != "" && s[0] != '\0' {
      CutIsPrefix(s[1..]);
      assert s == [s[0]] + s[1..];
    }
  }

  /** Cutting the escaped text or escaping the cut text is the same. */
  lemma {:induction false} CutOfEscaped(s: string)
    ensures CString(Escape(s)) == Escape(CString(s))
    decreases |s|
  {
    hide AtClose, Escape;
    if s == "" {
      EscapeOfNothing();
    } else if AtClose(s) {
      ClosePrefix(s);
      CutOfEscaped(s[3..]);
      CutBehind(SPLIT, Escape(s[3..]));
      CutBehind(CLOSE, s[3..]);
      EscapeOfClose(CString(s[3..]));
    } else {
      assert s == [s[0]] + s[1..];
      EscapeChar(s[0], s[1..]);
      if s[0] == '\0' {
        EscapeOfNothing();
      } else {
        CutOfEscaped(s[1..]);
        CutBehind([s[0]], Escape(s[1..]));
        CutIsPrefix(s[1..]);
        PrefixNotClosed(s[0], CString(s[1..]), s[1..]);
        EscapeChar(s[0], CString(s[1..]));
      }
    }
  }

  lemma EscapeOfNothing()
    ensures Escape("") == ""
  {
  }

  lemma EscapeOfClose(t: string)
    ensures Escape(CLOSE + t) == SPLIT + Escape(t)
  {
    assert (CLOSE + t)[3..] == t;
  }

  lemma PrefixNotClosed(c: char, p: string, t: string)
    requires p <= t && !AtClose([c] + t)
    ensures !AtClose([c] + p)
  {
  }

  /** A reader gets the text up to the first NUL, behind the line feed. */
  lemma WrittenText(s: string)
    ensures ReadSections(Written(s)) == Some("\n" + CString(s))
  {
    hide Escape, ReadSections, AtClose, CString;
    var t := CString(s);
    CutOfEscaped(s);
    EscapeRoundTrip("\n" + t);
    NotClosed('\n', t);
    EscapeChar('\n', t);
    assert OPEN + "\n" + Escape(t) + CLOSE == OPEN + ("\n" + Escape(t)) + CLOSE;
  }

  /** The whole text arrives if and only if it has no NUL. */
  lemma WholeTextWrittenIff(s: string)
    ensures ReadSections(Written(s)) == Some("\n" + s) <==> '\0' !in s
  {
    hide ReadSections, Written, CString;
    WrittenText(s);
    CutIsPrefix(s);
    assert ("\n" + CString(s))[1..] == CString(s) && ("\n" + s)[1..] == s;
  }

  // ----------------------------------------------------- the loop of the escaper

  /** `str.find(p, from)`: the first occurrence, or the length when there is none. */
  method Find(s: string, p: string, from: nat) returns (at: nat)
    requires from <= |s|
    ensures from <= at <= |s|
    ensures at < |s| ==> p != "" ==> StartsWith(s[at..], p)
    ensures forall k :: from <= k < at ==> !StartsWith(s[k..], p)
  {
    at := from;
    while at < |s| && !StartsWith(s[at..], p)
      invariant from <= at <= |s|
      invariant forall k :: from <= k < at ==> !StartsWith(s[k..], p)
    {
      at := at + 1;
    }
  }

  /** Text without an occurrence is copied. */
  lemma {:induction false} EscapeCopies(s: string, from: nat, at: nat)
    requires from <= at <= |s| && forall k :: from <= k < at ==> !AtClose(s[k..])
    ensures Escape(s[from..]) == s[from..at] + Escape(s[at..])
    decreases at - from
  {
    hide Escape, AtClose;
    if from < at {
      EscapeCopies(s, from + 1, at);
      assert s[from..] == [s[from]] + s[from + 1..];
      EscapeChar(s[from], s[from + 1..]);
      assert [s[from]] + s[from + 1..at] == s[from..at];
    }
  }

  lemma EscapeChar(c: char, t: string)
    requires !AtClose([c] + t)
    ensures Escape([c] + t) == [c] + Escape(t)
  {
  }

  method CDataEscape(str: string) returns (ret: string)
    ensures ret == Escape(str)
  {
    hide Escape, StartsWith, AtClose;
    ret := "";
    var pos := 0;
    assert str[0..] == str;
    while true
      invariant pos <= |str|
      invariant Escape(str) == ret + Escape(str[pos..])
      decreases |str| - pos
    {
      var opos := pos;
      pos := Find(str, CLOSE, opos);
      UpToFound(str, opos, pos);
      if pos == |str| {
        ret := ret + str[opos..];
        return;
      }
      ret := ret + str[opos..pos];
      ret := ret + SPLIT;
      pos := pos + |CLOSE|;
    }
  }

  /** One round: what lies before the next occurrence is copied, the occurrence is replaced. */
  lemma UpToFound(s: string, from: nat, at: nat)
    requires from <= at <= |s|
    requires at < |s| ==> StartsWith(s[at..], CLOSE)
    requires forall k :: from <= k < at ==> !StartsWith(s[k..], CLOSE)
    ensures at == |s| ==> Escape(s[from..]) == s[from..]
    ensures at < |s| ==> at + |CLOSE| <= |s| && Escape(s[from..]) == s[from..at] + SPLIT + Escape(s[at + |CLOSE|..])
  {
    hide Escape, StartsWith, AtClose;
    forall k | from <= k <= at
      ensures AtClose(s[k..]) <==> StartsWith(s[k..], CLOSE)
    {
      AtCloseIsPrefix(s[k..]);
    }
    EscapeCopies(s, from, at);
    EscapeSplits(s, at);
  }

  lemma EscapeSplits(s: string, at: nat)
    requires at <= |s|
    ensures at == |s| ==> Escape(s[at..]) == ""
    ensures AtClose(s[at..]) ==> at + |CLOSE| <= |s| && Escape(s[at..]) == SPLIT + Escape(s[at + |CLOSE|..])
  {
  }

  lemma CStringAt(s: string, at: nat)
    requires at <= |s|
    ensures if at < |s| && s[at] != '\0' then s[..at] + CString(s[at..]) == s[..at + 1] + CString(s[at + 1..]) else CString(s[at..]) == ""
  {
  }

  /** `cDataFromString`, between the tags. */
  method CDataFromString(str: string) returns (out: string)
    ensures out == Written(str)
  {
    hide Escape, CString;
    var escaped := CDataEscape(str);
    var at := 0;
    assert escaped[0..] == escaped;
    while at < |escaped| && escaped[at] != '\0'
      invariant at <= |escaped|
      invariant CString(escaped) == escaped[..at] + CString(escaped[at..])
    {
      CStringAt(escaped, at);
      at := at + 1;
    }
    CStringAt(escaped, at);
    out := OPEN + "\n" + escaped[..at] + CLOSE;
  }
}
