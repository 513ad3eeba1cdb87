/**
 Cleaning one string of a WebSocket message (internal/realtime/message_validator.go, sanitizeString):
 control characters are dropped, script tags escaped, and two URL schemes deleted; and what the result
 can still contain: exactly what deleting the schemes puts together.
 */
module TextCleaning {

  const SCRIPT_OPEN := "<script"
  const SCRIPT_CLOSE := "</script>"
  const JAVASCRIPT := "javascript:"
  const VBSCRIPT := "vbscript:"

  predicate IsControl(c: char) {
    c as int < 32 && c as int != 9 && c as int != 10 && c as int != 13
  }

  function Stripped(s: string): string {
    if s == "" then ""
    else Stripped(s[..|s| - 1]) + if IsControl(s[|s| - 1]) then "" else [s[|s| - 1]]
  }

  /** Every occurrence from the left replaced, none overlapping. */
  function ReplaceAll(s: string, pattern: string, with: string): string
    requires pattern != ""
  {
    if |s| < |pattern| then s
    else if pattern <= s then with + ReplaceAll(s[|pattern|..], pattern, with)
    else [s[0]] + ReplaceAll(s[1..], pattern, with)
  }

  function Escaped(s: string): string {
    ReplaceAll(ReplaceAll(s, SCRIPT_OPEN, "&lt;script"), SCRIPT_CLOSE, "&lt;/script&gt;")
  }

  function WithoutJavascript(s: string): string {
    ReplaceAll(s, JAVASCRIPT, "")
  }

  function WithoutVbscript(s: string): string {
    ReplaceAll(s, VBSCRIPT, "")
  }

  /** Both schemes deleted, in one pass each. */
  function Unschemed(s: string): string {
    WithoutVbscript(WithoutJavascript(s))
  }

  function Cleaned(s: string): string {
    Unschemed(Escaped(Stripped(s)))
  }

  predicate Has(s: string, q: string) {
    exists i :: 0 <= i <= |s| && q <= s[i..]
  }

  /** Somewhere `s` reads `q` once `delete` has been at it, and did not before. */
  predicate Rejoined(s: string, q: string, delete: string -> string)
    requires q != ""
  {
    exists i :: 0 <= i < |s| && RejoinedAt(s[i..], q, delete)
  }

  predicate RejoinedAt(s: string, q: string, delete: string -> string)
    requires s != "" && q != ""
  {
    s[0] == q[0] && !(q <= s) && q <= delete(s)
  }

  /** `w` is the characters of `q`, in order, with nothing but whole `pattern`s before and between them. */
  predicate Spells(w: string, q: string, pattern: string)
    requires pattern != ""
    decreases |w|
  {
    if q == "" then w == ""
    else
      || (pattern <= w && Spells(w[|pattern|..], q, pattern))
      || (w != "" && w[0] == q[0] && Spells(w[1..], q[1..], pattern))
  }

  /** `s` starts with such a spelling of `q`. */
  predicate Reads(s: string, q: string, pattern: string)
    requires pattern != ""
  {
    exists k :: 0 <= k <= |s| && Spells(s[..k], q, pattern)
  }

  /** The same with both schemes between the characters, and the first also inside the second. */
  ghost predicate ReadsThroughBoth(s: string, q: string) {
    exists w :: Spells(w, q, VBSCRIPT) && Reads(s, w, JAVASCRIPT)
  }

  /** Somewhere whole schemes stand between the characters of `q`, and `q` itself does not stand there; for
      the second scheme, which is looked for last, not even with the first between its characters. */
  ghost predicate PutTogether(s: string, q: string)
    requires q != ""
  {
    exists i :: 0 <= i < |s| && PutTogetherAt(s[i..], q)
  }

  ghost predicate PutTogetherAt(s: string, q: string)
    requires s != "" && q != ""
  {
    && s[0] == q[0] && ReadsThroughBoth(s[1..], q[1..])
    && !(if q == VBSCRIPT then Reads(s, q, JAVASCRIPT) else q <= s)
  }

  // ---------- The code ----------

  method SanitizeString(s: string) returns (cleaned: string)
    ensures cleaned == Cleaned(s)
    ensures forall i :: 0 <= i < |cleaned| ==> cleaned[i] as int >= 32 || cleaned[i] in "\t\n\r"
    ensures forall q :: q in {SCRIPT_OPEN, SCRIPT_CLOSE, JAVASCRIPT, VBSCRIPT} ==>
              (Has(cleaned, q) <==> PutTogether(Stripped(s), q))
  {
    var result := "";
    for i := 0 to |s|
      invariant result == Stripped(s[..i])
    {
      assert s[..i + 1][..i] == s[..i];
      if s[i] as int == 0 || (s[i] as int < 32 && s[i] as int != 9 && s[i] as int != 10 && s[i] as int != 13) {
        continue;
      }
      result := result + [s[i]];
    }
    assert s[..|s|] == s;
    hide *;
    cleaned := ReplaceAll(result, "<script", "&lt;script");
    cleaned := ReplaceAll(cleaned, "</script>", "&lt;/script&gt;");
    cleaned := ReplaceAll(cleaned, "javascript:", "");
    cleaned := ReplaceAll(cleaned, "vbscript:", "");
    CleanedInSteps(s);
    NoControlsLeft(s);
    assert forall i :: 0 <= i < |cleaned| ==> cleaned[i] as int >= 32 || cleaned[i] in "\t\n\r" by {
      ControlsInFull();
    }
    forall q | q in {SCRIPT_OPEN, SCRIPT_CLOSE, JAVASCRIPT, VBSCRIPT}
      ensures Has(cleaned, q) <==> PutTogether(Stripped(s), q)
    {
      WhatCleaningLeaves(s, q);
    }
  }

  lemma CleanedInSteps(s: string)
    ensures var escaped := ReplaceAll(ReplaceAll(Stripped(s), "<script", "&lt;script"), "</script>", "&lt;/script&gt;");
            ReplaceAll(ReplaceAll(escaped, "javascript:", ""), "vbscript:", "") == Cleaned(s)
  {}

  // ---------- Reading strings from the front ----------

  lemma HasStep(s: string, q: string)
    requires s != ""
    ensures Has(s, q) <==> q <= s || Has(s[1..], q)
  {
    if Has(s, q) {
      var i :| 0 <= i <= |s| && q <= s[i..];
      if i > 0 { assert s[1..][i - 1..] == s[i..]; } else { assert s[0..] == s; }
    }
    if q <= s { assert s[0..] == s; }
    if Has(s[1..], q) {
      var i :| 0 <= i <= |s[1..]| && q <= s[1..][i..];
      assert s[i + 1..] == s[1..][i..];
    }
  }

  /** A part without the first character of `q` in front makes no difference. */
  lemma {:induction false} HasSkip(a: string, b: string, q: string)
    requires q != "" && q[0] !in a
    ensures Has(a + b, q) <==> Has(b, q)
  {
    if a == "" {
      assert a + b == b;
    } else {
      assert (a + b)[1..] == a[1..] + b;
      HasStep(a + b, q);
      HasSkip(a[1..], b, q);
    }
  }

  lemma PrefixUpTo(a: string, c: char, b: string, q: string)
    requires c !in q
    ensures q <= a + [c] + b <==> q <= a
  {
    var s := a + [c] + b;
    if q <= s {
      assert forall k :: 0 <= k < |q| ==> s[k] in q;
      assert s[|a|] == c;
      assert |q| <= |a|;
      assert s[..|q|] == a[..|q|];
    }
  }

  /** A character that is not in `q` separates. */
  lemma {:induction false} HasAround(a: string, c: char, b: string, q: string)
    requires q != "" && c !in q
    ensures Has(a + [c] + b, q) <==> Has(a, q) || Has(b, q)
  {
    var s := a + [c] + b;
    HasStep(s, q);
    PrefixUpTo(a, c, b, q);
    if a == "" {
      assert s[1..] == b;
    } else {
      assert s[1..] == a[1..] + [c] + b;
      HasStep(a, q);
      HasAround(a[1..], c, b, q);
    }
  }

  lemma RejoinedStep(s: string, q: string, delete: string -> string)
    requires q != "" && s != ""
    ensures Rejoined(s, q, delete) <==> RejoinedAt(s, q, delete) || Rejoined(s[1..], q, delete)
  {
    assert s[0..] == s;
    forall i | 0 < i < |s| ensures s[i..] == s[1..][i - 1..] {}
    if Rejoined(s[1..], q, delete) {
      var i :| 0 <= i < |s[1..]| && RejoinedAt(s[1..][i..], q, delete);
      assert s[i + 1..] == s[1..][i..];
    }
  }

  lemma {:induction false} RejoinedSkip(a: string, b: string, q: string, delete: string -> string)
    requires q != "" && q[0] !in a
    ensures Rejoined(a + b, q, delete) <==> Rejoined(b, q, delete)
  {
    if a == "" {
      assert a + b == b;
    } else {
      assert (a + b)[1..] == a[1..] + b;
      RejoinedStep(a + b, q, delete);
      RejoinedSkip(a[1..], b, q, delete);
    }
  }

  // ---------- Replacing ----------

  lemma ReplaceHere(s: string, pattern: string, with: string)
    requires pattern != "" && pattern <= s
    ensures ReplaceAll(s, pattern, with) == with + ReplaceAll(s[|pattern|..], pattern, with)
  {}

  lemma ReplaceLater(s: string, pattern: string, with: string)
    requires pattern != "" && s != "" && !(pattern <= s)
    ensures ReplaceAll(s, pattern, with) == [s[0]] + ReplaceAll(s[1..], pattern, with)
  {}

  lemma ReplaceNone(pattern: string, with: string)
    requires pattern != ""
    ensures ReplaceAll("", pattern, with) == ""
  {}

  lemma ReplaceShort(s: string, pattern: string, with: string)
    requires |s| < |pattern|
    ensures ReplaceAll(s, pattern, with) == s
  {}

  /** Where no match can begin, nothing is replaced. */
  lemma {:induction false} ReplaceSkip(a: string, b: string, pattern: string, with: string)
    requires pattern != "" && pattern[0] !in a
    ensures ReplaceAll(a + b, pattern, with) == a + ReplaceAll(b, pattern, with)
  {
    hide ReplaceAll;
    if a == "" {
      assert a + b == b;
    } else {
      var s := a + b;
      assert s[0] == a[0] && s[0] in a && s[1..] == a[1..] + b;
      ReplaceSkip(a[1..], b, pattern, with);
      ReplaceLater(s, pattern, with);
      assert [a[0]] + (a[1..] + ReplaceAll(b, pattern, with)) == a + ReplaceAll(b, pattern, with);
    }
  }

  /** A character that is not in the pattern separates. */
  lemma {:induction false} ReplaceAround(a: string, c: char, b: string, pattern: string, with: string)
    requires pattern != "" && c !in pattern
    ensures ReplaceAll(a + [c] + b, pattern, with) == ReplaceAll(a, pattern, with) + [c] + ReplaceAll(b, pattern, with)
  {
    hide ReplaceAll;
    var s := a + [c] + b;
    PrefixUpTo(a, c, b, pattern);
    if a == "" {
      assert s == [c] + b;
      ReplaceNone(pattern, with);
      ReplaceSkip([c], b, pattern, with);
    } else if pattern <= s {
      var k := |pattern|;
      assert s[k..] == a[k..] + [c] + b;
      ReplaceAround(a[k..], c, b, pattern, with);
      ReplaceHere(s, pattern, with);
      ReplaceHere(a, pattern, with);
    } else {
      assert s[1..] == a[1..] + [c] + b;
      ReplaceAround(a[1..], c, b, pattern, with);
      ReplaceLater(s, pattern, with);
      ReplaceLater(a, pattern, with);
    }
  }

  lemma {:induction false} ReplaceKeepsOut(s: string, pattern: string, with: string, c: char)
    requires pattern != "" && c !in s && c !in with
    ensures c !in ReplaceAll(s, pattern, with)
  {
    if |s| < |pattern| {
    } else if pattern <= s {
      ReplaceKeepsOut(s[|pattern|..], pattern, with, c);
    } else {
      ReplaceKeepsOut(s[1..], pattern, with, c);
    }
  }

  lemma {:induction false} DeleteShortens(s: string, pattern: string)
    requires pattern != ""
    ensures |ReplaceAll(s, pattern, "")| <= |s|
  {
    if |s| < |pattern| {
    } else if pattern <= s {
      DeleteShortens(s[|pattern|..], pattern);
    } else {
      DeleteShortens(s[1..], pattern);
    }
  }

  /** A replacement that cannot be part of `q` changes nothing about starting with it. */
  lemma {:induction false} PrefixKept(s: string, pattern: string, with: string, q: string)
    requires pattern != "" && with != "" && pattern[0] !in q && with[0] !in q
    ensures q <= ReplaceAll(s, pattern, with) <==> q <= s
  {
    if |s| < |pattern| || q == "" {
    } else if pattern <= s {
      assert s[0] == pattern[0] && ReplaceAll(s, pattern, with)[0] == with[0];
      assert q[0] in q;
    } else {
      PrefixKept(s[1..], pattern, with, q[1..]);
      assert ReplaceAll(s, pattern, with)[1..] == ReplaceAll(s[1..], pattern, with);
      assert q == [q[0]] + q[1..] && s == [s[0]] + s[1..];
    }
  }

  lemma {:induction false} StrippedOfPlain(s: string)
    requires forall i :: 0 <= i < |s| ==> !IsControl(s[i])
    ensures Stripped(s) == s
  {
    if s == "" {
    } else {
      StrippedOfPlain(s[..|s| - 1]);
    }
  }

  lemma {:induction false} StrippedHasNone(s: string, c: char)
    requires IsControl(c)
    ensures c !in Stripped(s)
  {
    if s == "" {
    } else {
      StrippedHasNone(s[..|s| - 1], c);
    }
  }

  /** Stripping drops the control characters other than tab, line feed and carriage return, one by one, and
      leaves the rest in order. */
  lemma {:induction false} StrippedPiecewise(a: string, b: string)
    ensures Stripped(a + b) == Stripped(a) + Stripped(b)
  {
    hide *;
    if b == "" {
      assert a + b == a;
      StrippedNone();
    } else {
      var before, c := b[..|b| - 1], b[|b| - 1];
      StrippedPiecewise(a, before);
      StrippedMore(a + before, c);
      StrippedMore(before, c);
      assert a + b == a + before + [c] && b == before + [c];
    }
  }

  lemma StrippedNone()
    ensures Stripped("") == ""
  {}

  lemma StrippedMore(s: string, c: char)
    ensures Stripped(s + [c]) == Stripped(s) + if IsControl(c) then "" else [c]
  {
    assert (s + [c])[..|s|] == s;
  }

  lemma StrippedOne(c: char)
    ensures Stripped([c]) == if c as int >= 32 || c == '\t' || c == '\n' || c == '\r' then [c] else ""
  {
    assert [c][..0] == "";
  }

  lemma ControlsInFull()
    ensures forall c: char :: !IsControl(c) ==> c as int >= 32 || c in "\t\n\r"
  {
    assert "\t\n\r"[0] as int == 9 && "\t\n\r"[1] as int == 10 && "\t\n\r"[2] as int == 13;
  }

  /** No control character is ever left. */
  lemma NoControlsLeft(s: string)
    ensures forall i :: 0 <= i < |Cleaned(s)| ==> !IsControl(Cleaned(s)[i])
  {
    forall c: char | IsControl(c) ensures c !in Cleaned(s) {
      StrippedHasNone(s, c);
      var a := ReplaceAll(Stripped(s), SCRIPT_OPEN, "&lt;script");
      ReplaceKeepsOut(Stripped(s), SCRIPT_OPEN, "&lt;script", c);
      ReplaceKeepsOut(a, SCRIPT_CLOSE, "&lt;/script&gt;", c);
      ReplaceKeepsOut(Escaped(Stripped(s)), JAVASCRIPT, "", c);
      ReplaceKeepsOut(WithoutJavascript(Escaped(Stripped(s))), VBSCRIPT, "", c);
    }
  }

  lemma {:induction false} NothingToReplace(s: string, pattern: string, with: string, c: char)
    requires c in pattern && c !in s
    ensures ReplaceAll(s, pattern, with) == s
  {
    if |s| < |pattern| {
    } else {
      var k :| 0 <= k < |pattern| && pattern[k] == c;
      assert s[k] in s;
      NothingToReplace(s[1..], pattern, with, c);
    }
  }

  /** Sanitising touches only strings with a control character, a `<` or a `:`. */
  lemma PlainStringsAreKept(s: string)
    requires forall i :: 0 <= i < |s| ==> !IsControl(s[i])
    requires '<' !in s && ':' !in s
    ensures Cleaned(s) == s
  {
    StrippedOfPlain(s);
    assert SCRIPT_OPEN[0] == '<' && SCRIPT_CLOSE[0] == '<' && JAVASCRIPT[10] == ':' && VBSCRIPT[8] == ':';
    NothingToReplace(s, SCRIPT_OPEN, "&lt;script", '<');
    NothingToReplace(s, SCRIPT_CLOSE, "&lt;/script&gt;", '<');
    NothingToReplace(s, JAVASCRIPT, "", ':');
    NothingToReplace(s, VBSCRIPT, "", ':');
  }

  // ---------- Escaping, one `<` at a time ----------

  lemma EscapedSkip(u: string, z: string)
    requires '<' !in u
    ensures Escaped(u + z) == u + Escaped(z)
  {
    ReplaceSkip(u, z, SCRIPT_OPEN, "&lt;script");
    ReplaceSkip(u, ReplaceAll(z, SCRIPT_OPEN, "&lt;script"), SCRIPT_CLOSE, "&lt;/script&gt;");
  }

  lemma EscapedOpen(z: string)
    ensures Escaped(SCRIPT_OPEN + z) == "&lt;script" + Escaped(z)
  {
    var s := SCRIPT_OPEN + z;
    assert s[|SCRIPT_OPEN|..] == z;
    ReplaceSkip("&lt;script", ReplaceAll(z, SCRIPT_OPEN, "&lt;script"), SCRIPT_CLOSE, "&lt;/script&gt;");
  }

  lemma EscapedClose(z: string)
    ensures Escaped(SCRIPT_CLOSE + z) == "&lt;/script&gt;" + Escaped(z)
  {
    hide ReplaceAll;
    var s, a := SCRIPT_CLOSE + z, ReplaceAll(z, SCRIPT_OPEN, "&lt;script");
    CloseIsNotOpen(z);
    ReplaceLater(s, SCRIPT_OPEN, "&lt;script");
    ReplaceSkip("/script>", z, SCRIPT_OPEN, "&lt;script");
    assert ['<'] + ("/script>" + a) == SCRIPT_CLOSE + a;
    ReplaceHere(SCRIPT_CLOSE + a, SCRIPT_CLOSE, "&lt;/script&gt;");
    assert (SCRIPT_CLOSE + a)[|SCRIPT_CLOSE|..] == a;
  }

  lemma CloseIsNotOpen(z: string)
    ensures var s := SCRIPT_CLOSE + z; !(SCRIPT_OPEN <= s) && s[0] == '<' && s[1..] == "/script>" + z
  {
    assert (SCRIPT_CLOSE + z)[1] == '/' && SCRIPT_OPEN[1] == 's';
  }

  lemma TailPrefix(r: string, v: string)
    ensures "<" + r <= "<" + v <==> r <= v
  {
    if "<" + r <= "<" + v {
      assert ("<" + r)[1..] == r && ("<" + v)[1..] == v;
      assert ("<" + v)[..|r| + 1] == "<" + r;
      assert v[..|r|] == r;
    }
    if r <= v { assert ("<" + v)[..|r| + 1] == "<" + v[..|r|]; }
  }

  lemma EscapedOther(v: string)
    requires !("script" <= v) && !("/script>" <= v)
    ensures Escaped("<" + v) == "<" + Escaped(v)
  {
    var a := ReplaceAll(v, SCRIPT_OPEN, "&lt;script");
    assert SCRIPT_OPEN == "<" + "script" && SCRIPT_CLOSE == "<" + "/script>";
    TailPrefix("script", v);
    PrefixKept(v, SCRIPT_OPEN, "&lt;script", "/script>");
    TailPrefix("/script>", a);
    NotReplaced("<", v, SCRIPT_OPEN, "&lt;script");
    NotReplaced("<", a, SCRIPT_CLOSE, "&lt;/script&gt;");
  }

  lemma NotReplaced(c: string, v: string, pattern: string, with: string)
    requires |c| == 1 && pattern != "" && !(pattern <= c + v)
    ensures ReplaceAll(c + v, pattern, with) == c + ReplaceAll(v, pattern, with)
  {
    assert (c + v)[1..] == v;
  }

  // ---------- Deleting the schemes ----------

  lemma UnschemedSkip(a: string, b: string)
    requires 'j' !in a && 'v' !in a
    ensures Unschemed(a + b) == a + Unschemed(b)
  {
    ReplaceSkip(a, b, JAVASCRIPT, "");
    ReplaceSkip(a, WithoutJavascript(b), VBSCRIPT, "");
  }

  lemma UnschemedAround(a: string, c: char, b: string)
    requires c in "<&;"
    ensures Unschemed(a + [c] + b) == Unschemed(a) + [c] + Unschemed(b)
  {
    ReplaceAround(a, c, b, JAVASCRIPT, "");
    ReplaceAround(WithoutJavascript(a), c, WithoutJavascript(b), VBSCRIPT, "");
  }

  lemma UnschemedKeepsOut(s: string, c: char)
    requires c !in s
    ensures c !in Unschemed(s)
  {
    ReplaceKeepsOut(s, JAVASCRIPT, "", c);
    ReplaceKeepsOut(WithoutJavascript(s), VBSCRIPT, "", c);
  }

  // ---------- Both, over a string split at its first `<` ----------

  /** What follows a `<` in the text: an opening tag, a closing one, or something else. */
  datatype Follows = Opening(rest: string) | Closing(rest: string) | Else(rest: string)

  function Following(v: string): Follows {
    if "script" <= v then Opening(v[6..]) else if "/script>" <= v then Closing(v[8..]) else Else(v)
  }

  /** What stands in the cleaned text for the `<` and the tag after it. */
  function Shown(f: Follows): string {
    match f
    case Opening(_) => "&lt;script"
    case Closing(_) => "&lt;/script&gt;"
    case Else(_) => "<"
  }

  function Tag(f: Follows): string {
    match f
    case Opening(_) => "script"
    case Closing(_) => "/script>"
    case Else(_) => ""
  }

  lemma FollowingTag(v: string)
    ensures v == Tag(Following(v)) + Following(v).rest
    ensures Following(v).Else? ==> Following(v).rest == v
  {}

  lemma {:induction false} FirstOpen(s: string) returns (u: string, v: string)
    requires '<' in s
    ensures s == u + "<" + v && '<' !in u
  {
    if s[0] == '<' {
      u, v := "", s[1..];
    } else {
      assert s == [s[0]] + s[1..];
      u, v := FirstOpen(s[1..]);
      u := [s[0]] + u;
    }
  }

  lemma EscapedAtFirst(u: string, v: string)
    requires '<' !in u
    ensures Escaped(u + "<" + v) == u + Shown(Following(v)) + Escaped(Following(v).rest)
  {
    hide Escaped;
    EscapedSkip(u, "<" + v);
    assert u + "<" + v == u + ("<" + v);
    EscapedTag(v);
  }

  lemma EscapedTag(v: string)
    ensures Escaped("<" + v) == Shown(Following(v)) + Escaped(Following(v).rest)
  {
    hide Escaped;
    FollowingTag(v);
    match Following(v)
    case Opening(z) =>
      EscapedOpen(z);
      assert "<" + v == SCRIPT_OPEN + z;
    case Closing(z) =>
      EscapedClose(z);
      assert "<" + v == SCRIPT_CLOSE + z;
    case Else(_) => EscapedOther(v);
  }

  lemma ShownFacts(f: Follows)
    ensures Shown(f) != "" && Shown(f)[0] in "<&" && Shown(f) == [Shown(f)[0]] + Shown(f)[1..]
    ensures 'j' !in Shown(f) && 'v' !in Shown(f)
    ensures if f.Else? then Shown(f) == "<" else '<' !in Shown(f)
  {
    match f
    case Opening(_) => LongerShown("&lt;script");
    case Closing(_) => LongerShown("&lt;/script&gt;");
    case Else(_) =>
  }

  lemma LongerShown(s: string)
    requires s == "&lt;script" || s == "&lt;/script&gt;"
    ensures s[0] == '&' && 'j' !in s && 'v' !in s && '<' !in s
  {}

  lemma ShownUnschemed(f: Follows, z: string)
    ensures Shown(f) != "" && Unschemed(Shown(f)[1..] + z) == Shown(f)[1..] + Unschemed(z)
  {
    ShownFacts(f);
    hide Shown, Unschemed;
    UnschemedSkip(Shown(f)[1..], z);
  }

  lemma TagUnschemed(f: Follows, z: string)
    ensures Unschemed(Tag(f) + z) == Tag(f) + Unschemed(z)
    ensures 'j' !in Tag(f) && 'v' !in Tag(f) && '<' !in Tag(f)
  {
    UnschemedSkip(Tag(f), z);
  }

  /** The cleaned text, and the text with only the schemes deleted, fall apart at the same place. */
  lemma SplitAtFirst(u: string, v: string)
    requires '<' !in u
    ensures var f := Following(v);
            && Unschemed(Escaped(u + "<" + v)) == Unschemed(u) + Shown(f) + Unschemed(Escaped(f.rest))
            && Unschemed(u + "<" + v) == Unschemed(u) + "<" + Tag(f) + Unschemed(f.rest)
            && Unschemed(v) == Tag(f) + Unschemed(f.rest)
  {
    hide Escaped, Unschemed, Shown, Tag, Following;
    var f := Following(v);
    var z := Escaped(f.rest);
    EscapedAtFirst(u, v);
    ShownUnschemed(f, z);
    ShownFacts(f);
    var c, more := Shown(f)[0], Shown(f)[1..];
    UnschemedAround(u, c, more + z);
    assert u + Shown(f) + z == u + [c] + (more + z);
    assert Unschemed(u) + [c] + (more + Unschemed(z)) == Unschemed(u) + Shown(f) + Unschemed(z);
    FollowingTag(v);
    TagUnschemed(f, f.rest);
    UnschemedAround(u, '<', v);
    assert Unschemed(u) + "<" + Unschemed(v) == Unschemed(u) + "<" + Tag(f) + Unschemed(f.rest);
  }

  /** Escaping changes nothing about which tag a text starts with once the schemes are deleted. */
  lemma StartsAlike(v: string, q: string)
    requires '<' !in q && '&' !in q
    ensures q <= Unschemed(Escaped(v)) <==> q <= Unschemed(v)
  {
    hide Escaped, Unschemed, Shown, Tag, Following;
    if '<' in v {
      var u, w := FirstOpen(v);
      var f := Following(w);
      SplitAtFirst(u, w);
      ShownFacts(f);
      var c, more := Shown(f)[0], Shown(f)[1..];
      var z := Unschemed(Escaped(f.rest));
      assert Unschemed(u) + Shown(f) + z == Unschemed(u) + [c] + (more + z);
      PrefixUpTo(Unschemed(u), c, more + z, q);
      PrefixUpTo(Unschemed(u), '<', Tag(f) + Unschemed(f.rest), q);
      assert Unschemed(u) + "<" + Tag(f) + Unschemed(f.rest) == Unschemed(u) + "<" + (Tag(f) + Unschemed(f.rest));
    } else {
      NothingEscaped(v);
    }
  }

  lemma NothingEscaped(s: string)
    requires '<' !in s
    ensures Escaped(s) == s
  {
    NothingToReplace(s, SCRIPT_OPEN, "&lt;script", '<');
    NothingToReplace(s, SCRIPT_CLOSE, "&lt;/script&gt;", '<');
  }

  // ---------- Tags that are left ----------

  lemma NoneWithoutFirst(s: string, q: string, delete: string -> string)
    requires q != "" && q[0] !in s
    ensures !Has(s, q) && !Rejoined(s, q, delete)
  {
    HasSkip(s, "", q);
    RejoinedSkip(s, "", q, delete);
    assert s + "" == s;
  }

  predicate IsTag(q: string) {
    q == SCRIPT_OPEN || q == SCRIPT_CLOSE
  }

  /** At the first `<`: a tag can be put together there only if none stands there. */
  lemma RejoinedAtFirst(v: string, tag: string)
    requires IsTag(tag)
    ensures RejoinedAt("<" + v, tag, Unschemed) <==> Following(v).Else? && tag[1..] <= Unschemed(v)
  {
    hide Unschemed, Following, Tag;
    var s, r := "<" + v, tag[1..];
    TagParts(tag);
    UnschemedAround("", '<', v);
    UnschemedNothing();
    assert s == "" + ['<'] + v;
    assert Unschemed(s) == "<" + Unschemed(v);
    TailPrefix(r, v);
    TailPrefix(r, Unschemed(v));
    OneTagOnly(v, r);
  }

  lemma TagParts(tag: string)
    requires IsTag(tag)
    ensures tag == "<" + tag[1..] && tag[0] == '<'
    ensures tag[1..] == "script" || tag[1..] == "/script>"
  {}

  lemma UnschemedNothing()
    ensures Unschemed("") == ""
  {}

  /** A text that starts with a tag's name does so with the schemes deleted, and then not with the other's. */
  lemma OneTagOnly(v: string, r: string)
    requires r == "script" || r == "/script>"
    ensures !Following(v).Else? && r <= Unschemed(v) ==> r <= v
    ensures Following(v).Else? ==> !(r <= v)
  {
    hide Unschemed;
    var f := Following(v);
    if !f.Else? {
      FollowingTag(v);
      TagUnschemed(f, f.rest);
      assert Unschemed(v)[0] == Tag(f)[0] == v[0];
      if r != Tag(f) { assert r[0] != Tag(f)[0]; }
    }
  }

  lemma HasAtFirst(u: string, f: Follows, left: string, tag: string)
    requires IsTag(tag) && '<' !in u
    ensures Has(u + Shown(f) + left, tag) <==> (f.Else? && tag[1..] <= left) || Has(left, tag)
  {
    hide Has, Shown;
    ShownFacts(f);
    if f.Else? {
      assert u + "<" + left == u + ("<" + left);
      HasSkip(u, "<" + left, tag);
      HasStep("<" + left, tag);
      assert ("<" + left)[1..] == left && tag == "<" + tag[1..];
      TailPrefix(tag[1..], left);
    } else {
      HasSkip(u + Shown(f), left, tag);
    }
  }

  lemma RejoinedFromFirst(u: string, v: string, tag: string)
    requires IsTag(tag) && '<' !in u
    ensures Rejoined(u + "<" + v, tag, Unschemed) <==>
            (Following(v).Else? && tag[1..] <= Unschemed(v)) || Rejoined(Following(v).rest, tag, Unschemed)
  {
    hide Rejoined, RejoinedAt, Unschemed, Following, Tag;
    var f := Following(v);
    assert u + "<" + v == u + ("<" + v) && ("<" + v)[1..] == v;
    RejoinedSkip(u, "<" + v, tag, Unschemed);
    RejoinedStep("<" + v, tag, Unschemed);
    RejoinedAtFirst(v, tag);
    FollowingTag(v);
    TagUnschemed(f, "");
    RejoinedSkip(Tag(f), f.rest, tag, Unschemed);
  }

  lemma {:induction false} TagsLeft(s: string, tag: string)
    requires IsTag(tag)
    ensures Has(Unschemed(Escaped(s)), tag) <==> Rejoined(s, tag, Unschemed)
    decreases |s|
  {
    hide Escaped, Unschemed, Shown, Tag, Following, Has, Rejoined, RejoinedAt;
    if '<' !in s {
      NothingEscaped(s);
      UnschemedKeepsOut(s, '<');
      NoneWithoutFirst(s, tag, Unschemed);
      NoneWithoutFirst(Unschemed(s), tag, Unschemed);
    } else {
      var u, v := FirstOpen(s);
      var f := Following(v);
      SplitAtFirst(u, v);
      UnschemedKeepsOut(u, '<');
      FollowingTag(v);
      TagsLeft(f.rest, tag);
      HasAtFirst(Unschemed(u), f, Unschemed(Escaped(f.rest)), tag);
      RejoinedFromFirst(u, v, tag);
      if f.Else? { StartsAlike(v, tag[1..]); }
    }
  }

  // ---------- Schemes that are left ----------

  predicate IsScheme(q: string) {
    q == JAVASCRIPT || q == VBSCRIPT
  }

  /** Escaping makes no scheme and breaks none. */
  lemma {:induction false} SchemesUnescaped(s: string, q: string)
    requires IsScheme(q)
    ensures Has(Unschemed(Escaped(s)), q) <==> Has(Unschemed(s), q)
    decreases |s|
  {
    hide Escaped, Unschemed, Shown, Tag, Following, Has;
    if '<' !in s {
      NothingEscaped(s);
    } else {
      var u, v := FirstOpen(s);
      var f := Following(v);
      SplitAtFirst(u, v);
      FollowingTag(v);
      ShownFacts(f);
      TagUnschemed(f, "");
      SchemesUnescaped(f.rest, q);
      HasInTwo(Unschemed(u), Shown(f)[0], Shown(f)[1..], Unschemed(Escaped(f.rest)), q);
      HasInTwo(Unschemed(u), '<', Tag(f), Unschemed(f.rest), q);
      assert Unschemed(u) + "<" + Tag(f) == Unschemed(u) + (['<'] + Tag(f));
    }
  }

  /** A part that starts with a character `q` does not have, and goes on without its first, separates. */
  lemma HasInTwo(a: string, c: char, more: string, b: string, q: string)
    requires IsScheme(q) && c in "<&" && 'j' !in more && 'v' !in more
    ensures Has(a + ([c] + more) + b, q) <==> Has(a, q) || Has(b, q)
  {
    assert a + ([c] + more) + b == a + [c] + (more + b);
    NotInSchemes(q, c);
    HasAround(a, c, more + b, q);
    HasSkip(more, b, q);
  }

  lemma NotInSchemes(q: string, c: char)
    requires IsScheme(q) && c in "<&"
    ensures c !in q && (q[0] == 'j' || q[0] == 'v')
  {}

  /** Deleting once leaves a scheme exactly where one is put together by it. */
  lemma {:induction false} VbscriptLeft(s: string)
    ensures Has(WithoutVbscript(s), VBSCRIPT) <==> Rejoined(s, VBSCRIPT, WithoutVbscript)
  {
    if |s| < |VBSCRIPT| {
      UnschemedShortens();
      TooShort(s, VBSCRIPT, WithoutVbscript);
    } else if VBSCRIPT <= s {
      var z := s[|VBSCRIPT|..];
      VbscriptLeft(z);
      assert s == VBSCRIPT + z && s == ['v'] + ("bscript:" + z);
      assert s[1..] == "bscript:" + z;
      RejoinedStep(s, VBSCRIPT, WithoutVbscript);
      RejoinedSkip("bscript:", z, VBSCRIPT, WithoutVbscript);
      assert WithoutVbscript(s) == "" + WithoutVbscript(z) == WithoutVbscript(z);
      assert !RejoinedAt(s, VBSCRIPT, WithoutVbscript);
    } else {
      VbscriptLeft(s[1..]);
      RejoinedStep(s, VBSCRIPT, WithoutVbscript);
      HasStep(WithoutVbscript(s), VBSCRIPT);
      assert WithoutVbscript(s)[1..] == WithoutVbscript(s[1..]);
    }
  }

  lemma TooShort(s: string, q: string, delete: string -> string)
    requires |s| < |q| && forall t :: |delete(t)| <= |t|
    ensures !Has(s, q) && !Rejoined(s, q, delete)
  {}

  lemma UnschemedShortens()
    ensures forall t :: |WithoutVbscript(t)| <= |t|
    ensures forall t :: |Unschemed(t)| <= |t|
  {
    forall t ensures |WithoutVbscript(t)| <= |t| && |Unschemed(t)| <= |t| {
      DeleteShortens(t, VBSCRIPT);
      DeleteShortens(t, JAVASCRIPT);
      DeleteShortens(WithoutJavascript(t), VBSCRIPT);
    }
  }

  /** In front of a text, a character other than `j` changes nothing about the other scheme. */
  lemma FrontCharacter(c: char, y: string)
    requires c != 'j'
    ensures Has(WithoutVbscript([c] + y), JAVASCRIPT) <==> Has(WithoutVbscript(y), JAVASCRIPT)
  {
    var s := [c] + y;
    assert s[1..] == y;
    if VBSCRIPT <= s {
      var z := s[|VBSCRIPT|..];
      assert s == VBSCRIPT + z && VBSCRIPT == "v" + "bscript:";
      assert y == "bscript:" + z;
      ReplaceSkip("bscript:", z, VBSCRIPT, "");
      HasSkip("bscript:", WithoutVbscript(z), JAVASCRIPT);
      assert WithoutVbscript(s) == "" + WithoutVbscript(z) == WithoutVbscript(z);
    } else {
      if |s| < |VBSCRIPT| { assert WithoutVbscript(y) == y; }
      assert WithoutVbscript(s) == [c] + WithoutVbscript(y);
      HasSkip([c], WithoutVbscript(y), JAVASCRIPT);
    }
  }

  lemma {:induction false} JavascriptLeft(s: string)
    ensures Has(Unschemed(s), JAVASCRIPT) <==> Rejoined(s, JAVASCRIPT, Unschemed)
  {
    if |s| < |JAVASCRIPT| {
      UnschemedShortens();
      TooShort(s, JAVASCRIPT, Unschemed);
      TooShort(Unschemed(s), JAVASCRIPT, Unschemed);
    } else if JAVASCRIPT <= s {
      var z := s[|JAVASCRIPT|..];
      JavascriptLeft(z);
      assert s == JAVASCRIPT + z && s == ['j'] + ("avascript:" + z);
      RejoinedStep(s, JAVASCRIPT, Unschemed);
      assert s[1..] == "avascript:" + z;
      RejoinedSkip("avascript:", z, JAVASCRIPT, Unschemed);
      assert WithoutJavascript(s) == WithoutJavascript(z);
    } else {
      JavascriptLeft(s[1..]);
      RejoinedStep(s, JAVASCRIPT, Unschemed);
      var y := WithoutJavascript(s[1..]);
      assert WithoutJavascript(s) == [s[0]] + y;
      if s[0] == 'j' {
        ReplaceSkip("j", y, VBSCRIPT, "");
        assert Unschemed(s) == "j" + Unschemed(s[1..]);
        HasStep(Unschemed(s), JAVASCRIPT);
        assert Unschemed(s)[1..] == Unschemed(s[1..]);
      } else {
        FrontCharacter(s[0], y);
      }
    }
  }

  // ---------- What is left, exactly ----------

  /** Each of the four is left in the cleaned text exactly when deleting the schemes puts one together. */
  lemma LeftByDeleting(s: string)
    ensures Has(Cleaned(s), SCRIPT_OPEN) <==> Rejoined(Stripped(s), SCRIPT_OPEN, Unschemed)
    ensures Has(Cleaned(s), SCRIPT_CLOSE) <==> Rejoined(Stripped(s), SCRIPT_CLOSE, Unschemed)
    ensures Has(Cleaned(s), JAVASCRIPT) <==> Rejoined(Stripped(s), JAVASCRIPT, Unschemed)
    ensures Has(Cleaned(s), VBSCRIPT) <==> Rejoined(WithoutJavascript(Stripped(s)), VBSCRIPT, WithoutVbscript)
  {
    var x := Stripped(s);
    TagsLeft(x, SCRIPT_OPEN);
    TagsLeft(x, SCRIPT_CLOSE);
    SchemesUnescaped(x, JAVASCRIPT);
    JavascriptLeft(x);
    SchemesUnescaped(x, VBSCRIPT);
    VbscriptLeft(WithoutJavascript(x));
  }

  lemma {:induction false} DeletedIsSpelled(s: string, q: string, pattern: string) returns (k: nat)
    requires pattern != "" && q <= ReplaceAll(s, pattern, "")
    ensures k <= |s| && Spells(s[..k], q, pattern)
  {
    if q == "" {
      k := 0;
    } else if pattern <= s {
      k := DeletedIsSpelled(s[|pattern|..], q, pattern);
      k := k + |pattern|;
      assert s[..k][|pattern|..] == s[|pattern|..][..k - |pattern|];
    } else {
      assert s != "";
      ReplaceLater(s, pattern, "");
      assert ReplaceAll(s, pattern, "")[1..] == ReplaceAll(s[1..], pattern, "");
      k := DeletedIsSpelled(s[1..], q[1..], pattern);
      k := k + 1;
      assert s[..k][1..] == s[1..][..k - 1];
    }
  }

  /** Where the pattern's first character stands in `q`, the pattern does not go on as `q` does. */
  predicate Distinct(q: string, pattern: string) {
    && |pattern| >= 2 && pattern[0] != pattern[1]
    && forall i :: 0 <= i < |q| && q[i] == pattern[0] ==> i + 1 < |q| && q[i + 1] != pattern[1]
  }

  lemma NotSpelled(w: string, q: string, pattern: string)
    requires |pattern| >= 2 && pattern[0] != pattern[1] && q != "" && q[0] != pattern[1]
    requires w == "" || w[0] == pattern[1]
    ensures !Spells(w, q, pattern)
  {}

  /** Where a text goes on with the pattern, no character of `q` is read. */
  lemma OnlyThePattern(w: string, s: string, q: string, pattern: string)
    requires Distinct(q, pattern) && q != "" && w <= s && pattern <= s
    ensures !(w != "" && w[0] == q[0] && Spells(w[1..], q[1..], pattern))
  {
    if w != "" && w[0] == q[0] { NotSpelled(w[1..], q[1..], pattern); }
  }

  lemma SpelledHere(s: string, k: nat, q: string, pattern: string)
    requires Distinct(q, pattern) && k <= |s| && q != "" && Spells(s[..k], q, pattern)
    requires !(pattern <= s[..k] && Spells(s[..k][|pattern|..], q, pattern))
    ensures k > 0 && s[0] == q[0] && Spells(s[1..][..k - 1], q[1..], pattern) && !(pattern <= s)
  {
    var w := s[..k];
    assert w[1..] == s[1..][..k - 1];
    if pattern <= s { OnlyThePattern(w, s, q, pattern); }
  }

  lemma {:induction false} SpelledIsDeleted(s: string, k: nat, q: string, pattern: string)
    requires Distinct(q, pattern) && k <= |s| && Spells(s[..k], q, pattern)
    ensures q <= ReplaceAll(s, pattern, "")
  {
    hide ReplaceAll;
    if q == "" {
    } else if pattern <= s[..k] && Spells(s[..k][|pattern|..], q, pattern) {
      assert s[..k][|pattern|..] == s[|pattern|..][..k - |pattern|];
      SpelledIsDeleted(s[|pattern|..], k - |pattern|, q, pattern);
      ReplaceHere(s, pattern, "");
    } else {
      SpelledHere(s, k, q, pattern);
      SpelledIsDeleted(s[1..], k - 1, q[1..], pattern);
      ReplaceLater(s, pattern, "");
      assert q == [q[0]] + q[1..];
    }
  }

  lemma ReadsIsDeleted(s: string, q: string, pattern: string)
    requires Distinct(q, pattern)
    ensures Reads(s, q, pattern) <==> q <= ReplaceAll(s, pattern, "")
  {
    if Reads(s, q, pattern) {
      var k :| 0 <= k <= |s| && Spells(s[..k], q, pattern);
      SpelledIsDeleted(s, k, q, pattern);
    }
    if q <= ReplaceAll(s, pattern, "") {
      var k := DeletedIsSpelled(s, q, pattern);
    }
  }

  lemma {:induction false} SpelledWithout(w: string, q: string, pattern: string, c: char)
    requires pattern != "" && Spells(w, q, pattern) && c !in q && c !in pattern
    ensures c !in w
    decreases |w|
  {
    if q == "" {
    } else if pattern <= w && Spells(w[|pattern|..], q, pattern) {
      SpelledWithout(w[|pattern|..], q, pattern, c);
      assert w == pattern + w[|pattern|..];
    } else {
      SpelledWithout(w[1..], q[1..], pattern, c);
      assert w == [q[0]] + w[1..];
    }
  }

  lemma SchemeFacts()
    ensures JAVASCRIPT[0] == 'j' && JAVASCRIPT[1] == 'a' && VBSCRIPT[0] == 'v' && VBSCRIPT[1] == 'b'
    ensures |JAVASCRIPT| == 11 && |VBSCRIPT| == 9 && 'j' !in VBSCRIPT
  {}

  /** What a text starts with when both schemes are deleted. */
  lemma ReadsThroughBothIsDeleted(s: string, q: string)
    requires 'j' !in q && Distinct(q, VBSCRIPT)
    ensures ReadsThroughBoth(s, q) <==> q <= Unschemed(s)
  {
    hide Spells, ReplaceAll, Reads, Distinct;
    SchemeFacts();
    var y := WithoutJavascript(s);
    if ReadsThroughBoth(s, q) {
      var w :| Spells(w, q, VBSCRIPT) && Reads(s, w, JAVASCRIPT);
      SpelledWithout(w, q, VBSCRIPT, 'j');
      WithoutFirst(w);
      ReadsIsDeleted(s, w, JAVASCRIPT);
      assert y[..|w|] == w;
      SpelledIsDeleted(y, |w|, q, VBSCRIPT);
    }
    if q <= Unschemed(s) {
      var k := DeletedIsSpelled(y, q, VBSCRIPT);
      SpelledWithout(y[..k], q, VBSCRIPT, 'j');
      WithoutFirst(y[..k]);
      ReadsIsDeleted(s, y[..k], JAVASCRIPT);
    }
  }

  lemma WithoutFirst(w: string)
    requires 'j' !in w
    ensures Distinct(w, JAVASCRIPT)
  {
    SchemeFacts();
  }

  /** The rest of each of the four. */
  lemma RestFacts(q: string)
    requires q in {SCRIPT_OPEN, SCRIPT_CLOSE, JAVASCRIPT, VBSCRIPT}
    ensures 'j' !in q[1..] && Distinct(q[1..], VBSCRIPT) && q == [q[0]] + q[1..]
    ensures q[0] == if IsTag(q) then '<' else if q == JAVASCRIPT then 'j' else 'v'
  {
    assert q[1..] in {"script", "/script>", "avascript:", "bscript:"};
  }

  lemma StartsWith(c: char, s: string, q: string)
    requires q != ""
    ensures q <= [c] + s <==> q[0] == c && q[1..] <= s
  {
    var t := [c] + s;
    if q <= t { assert t[1..] == s && q[1..] <= t[1..]; }
    if q[0] == c && q[1..] <= s { assert q == [c] + q[1..]; }
  }

  lemma RejoinedIsPutTogetherAt(s: string, q: string)
    requires s != "" && (IsTag(q) || q == JAVASCRIPT)
    ensures RejoinedAt(s, q, Unschemed) <==> PutTogetherAt(s, q)
  {
    hide ReplaceAll, ReadsThroughBoth, Distinct;
    RestFacts(q);
    if s[0] == q[0] && !(q <= s) {
      SameFront(s, q);
      StartsWith(s[0], Unschemed(s[1..]), q);
      ReadsThroughBothIsDeleted(s[1..], q[1..]);
      assert q != VBSCRIPT by { assert VBSCRIPT[0] == 'v'; }
    }
  }

  lemma SameFront(s: string, q: string)
    requires s != "" && (IsTag(q) || q == JAVASCRIPT) && s[0] == q[0] && !(q <= s)
    ensures Unschemed(s) == [s[0]] + Unschemed(s[1..])
  {
    hide ReplaceAll;
    RestFacts(q);
    SchemeFacts();
    assert s == [s[0]] + s[1..];
    if q == JAVASCRIPT {
      NotReplaced([s[0]], s[1..], JAVASCRIPT, "");
    } else {
      ReplaceSkip([s[0]], s[1..], JAVASCRIPT, "");
    }
    ReplaceSkip([s[0]], WithoutJavascript(s[1..]), VBSCRIPT, "");
  }

  lemma PutTogetherStep(s: string, q: string)
    requires q != "" && s != ""
    ensures PutTogether(s, q) <==> PutTogetherAt(s, q) || PutTogether(s[1..], q)
  {
    hide PutTogetherAt;
    assert s[0..] == s;
    forall i | 0 < i < |s| ensures s[i..] == s[1..][i - 1..] {}
    if PutTogether(s[1..], q) {
      var i :| 0 <= i < |s[1..]| && PutTogetherAt(s[1..][i..], q);
      assert s[i + 1..] == s[1..][i..];
    }
  }

  lemma {:induction false} PutTogetherSkip(a: string, b: string, q: string)
    requires q != "" && q[0] !in a
    ensures PutTogether(a + b, q) <==> PutTogether(b, q)
  {
    hide PutTogether, ReadsThroughBoth, Reads;
    if a == "" {
      assert a + b == b;
    } else {
      assert (a + b)[1..] == a[1..] + b;
      PutTogetherStep(a + b, q);
      PutTogetherSkip(a[1..], b, q);
    }
  }

  /** At a `v` that the first deletion keeps. */
  lemma VbscriptPutTogetherAt(s: string)
    requires s != "" && !(JAVASCRIPT <= s)
    ensures WithoutJavascript(s) == [s[0]] + WithoutJavascript(s[1..])
    ensures RejoinedAt(WithoutJavascript(s), VBSCRIPT, WithoutVbscript) <==> PutTogetherAt(s, VBSCRIPT)
  {
    hide ReplaceAll, ReadsThroughBoth, Distinct, Reads;
    var y := WithoutJavascript(s[1..]);
    ReplaceLater(s, JAVASCRIPT, "");
    RestFacts(VBSCRIPT);
    SchemeFacts();
    WithoutFirst(VBSCRIPT);
    ReadsIsDeleted(s, VBSCRIPT, JAVASCRIPT);
    if s[0] == 'v' && !(VBSCRIPT <= [s[0]] + y) {
      NotReplaced([s[0]], y, VBSCRIPT, "");
      StartsWith(s[0], WithoutVbscript(y), VBSCRIPT);
      ReadsThroughBothIsDeleted(s[1..], VBSCRIPT[1..]);
    }
  }

  lemma JavascriptParts()
    ensures JAVASCRIPT == "ja" + ("v" + "ascript:") && "ascript:" == "a" + "script:"
  {}

  /** The `v` inside a `javascript:` starts nothing. */
  lemma NotInJavascript(z: string)
    ensures PutTogether(JAVASCRIPT + z, VBSCRIPT) <==> PutTogether(z, VBSCRIPT)
  {
    hide PutTogether, ReadsThroughBoth, Distinct, Unschemed, Reads;
    var s, rest := "v" + ("ascript:" + z), "ascript:" + z;
    JavascriptParts();
    assert JAVASCRIPT + z == "ja" + ("v" + "ascript:") + z == "ja" + s;
    assert s[1..] == rest && rest == "a" + "script:" + z == "a" + ("script:" + z);
    SchemeFacts();
    RestFacts(VBSCRIPT);
    PutTogetherSkip("ja", s, VBSCRIPT);
    PutTogetherStep(s, VBSCRIPT);
    PutTogetherSkip("ascript:", z, VBSCRIPT);
    UnschemedSkip("a", "script:" + z);
    StartsWith('a', Unschemed("script:" + z), VBSCRIPT[1..]);
    ReadsThroughBothIsDeleted(rest, VBSCRIPT[1..]);
  }

  lemma {:induction false} VbscriptPutTogether(s: string)
    ensures Rejoined(WithoutJavascript(s), VBSCRIPT, WithoutVbscript) <==> PutTogether(s, VBSCRIPT)
    decreases |s|
  {
    hide ReplaceAll, Rejoined, RejoinedAt, PutTogether, PutTogetherAt;
    if s == "" {
      NothingPutTogether();
    } else if JAVASCRIPT <= s {
      var z := s[|JAVASCRIPT|..];
      assert s == JAVASCRIPT + z;
      VbscriptPutTogether(z);
      NotInJavascript(z);
      ReplaceHere(s, JAVASCRIPT, "");
      assert WithoutJavascript(s) == "" + WithoutJavascript(z) == WithoutJavascript(z);
    } else {
      VbscriptPutTogether(s[1..]);
      VbscriptPutTogetherAt(s);
      RejoinedStep(WithoutJavascript(s), VBSCRIPT, WithoutVbscript);
      PutTogetherStep(s, VBSCRIPT);
    }
  }

  lemma NothingPutTogether()
    ensures !Rejoined(WithoutJavascript(""), VBSCRIPT, WithoutVbscript) && !PutTogether("", VBSCRIPT)
  {}

  /** What is left, told from the text alone. */
  lemma WhatCleaningLeaves(s: string, q: string)
    requires q in {SCRIPT_OPEN, SCRIPT_CLOSE, JAVASCRIPT, VBSCRIPT}
    ensures Has(Cleaned(s), q) <==> PutTogether(Stripped(s), q)
  {
    hide Has, PutTogetherAt, RejoinedAt, Cleaned, Stripped, Unschemed;
    var x := Stripped(s);
    LeftByDeleting(s);
    VbscriptPutTogether(x);
    if q != VBSCRIPT {
      forall i | 0 <= i < |x| ensures RejoinedAt(x[i..], q, Unschemed) <==> PutTogetherAt(x[i..], q) {
        RejoinedIsPutTogetherAt(x[i..], q);
      }
    }
  }

  lemma {:induction false} NothingToDelete(s: string, q: string)
    requires q != "" && !Has(s, q)
    ensures ReplaceAll(s, q, "") == s
  {
    if |s| < |q| {
    } else {
      HasStep(s, q);
      NothingToDelete(s[1..], q);
    }
  }

  /** A text without either scheme is left without all four. */
  lemma CleanWithoutSchemes(s: string)
    requires !Has(Stripped(s), JAVASCRIPT) && !Has(Stripped(s), VBSCRIPT)
    ensures !Has(Cleaned(s), SCRIPT_OPEN) && !Has(Cleaned(s), SCRIPT_CLOSE)
    ensures !Has(Cleaned(s), JAVASCRIPT) && !Has(Cleaned(s), VBSCRIPT)
  {
    var x := Stripped(s);
    LeftByDeleting(s);
    NothingToDelete(x, JAVASCRIPT);
    forall i | 0 <= i < |x| ensures Unschemed(x[i..]) == x[i..] && WithoutVbscript(x[i..]) == x[i..] {
      if Has(x[i..], JAVASCRIPT) { PartHas(x, i, JAVASCRIPT); }
      if Has(x[i..], VBSCRIPT) { PartHas(x, i, VBSCRIPT); }
      NothingToDelete(x[i..], JAVASCRIPT);
      NothingToDelete(x[i..], VBSCRIPT);
    }
  }

  lemma PartHas(s: string, i: nat, q: string)
    requires i <= |s| && Has(s[i..], q)
    ensures Has(s, q)
  {
    var k :| 0 <= k <= |s[i..]| && q <= s[i..][k..];
    assert s[i + k..] == s[i..][k..];
  }

  lemma DeletedOnce(a: string, b: string, pattern: string)
    requires pattern != "" && pattern[0] !in a && |b| < |pattern|
    ensures ReplaceAll(a + pattern + b, pattern, "") == a + b
  {
    hide ReplaceAll;
    assert a + pattern + b == a + (pattern + b);
    ReplaceSkip(a, pattern + b, pattern, "");
    ReplaceHere(pattern + b, pattern, "");
    assert (pattern + b)[|pattern|..] == b;
    ReplaceShort(b, pattern, "");
  }

  /** What is put together can be an opening tag. */
  lemma ATagCanBeLeft(s: string)
    requires s == "<" + (JAVASCRIPT + "script")
    ensures Cleaned(s) == SCRIPT_OPEN
  {
    hide *;
    var v := JAVASCRIPT + "script";
    NoControlsInParts("<", v);
    StrippedOfPlain(s);
    NoTagAhead(v);
    EscapedOther(v);
    NothingEscaped(v);
    CleanedIs(s);
    assert s == "<" + JAVASCRIPT + "script";
    NotInPatterns();
    DeletedOnce("<", "script", JAVASCRIPT);
    NothingToReplace(SCRIPT_OPEN, VBSCRIPT, "", 'b');
  }

  lemma NoTagAhead(v: string)
    requires v == JAVASCRIPT + "script"
    ensures !("script" <= v) && !("/script>" <= v) && '<' !in v
  {
    assert v[0] == 'j';
  }

  lemma NotInPatterns()
    ensures JAVASCRIPT[0] == 'j' && |JAVASCRIPT| == 11 && 'b' !in JAVASCRIPT && 'b' in VBSCRIPT
    ensures SCRIPT_OPEN == "<" + "script" && 'b' !in SCRIPT_OPEN
  {
    assert VBSCRIPT[1] == 'b';
  }

  /** Or a scheme. */
  lemma ASchemeCanBeLeft(s: string)
    requires s == "j" + ("ava" + JAVASCRIPT + "script:")
    ensures Cleaned(s) == JAVASCRIPT
  {
    hide *;
    var v := "ava" + JAVASCRIPT + "script:";
    NoControlsInParts("j", v);
    StrippedOfPlain(s);
    NoSchemeAhead(s, v);
    NothingEscaped(s);
    CleanedIs(s);
    NotInPatterns();
    DeletedOnce("ava", "script:", JAVASCRIPT);
    NotReplaced("j", v, JAVASCRIPT, "");
    NothingToReplace(JAVASCRIPT, VBSCRIPT, "", 'b');
  }

  lemma NoSchemeAhead(s: string, v: string)
    requires s == "j" + v && v == "ava" + JAVASCRIPT + "script:"
    ensures !(JAVASCRIPT <= s) && '<' !in s && "j" + ("ava" + "script:") == JAVASCRIPT
  {
    assert s[4] == 'j' && JAVASCRIPT[4] == 's';
  }

  lemma NoControlsInParts(a: string, b: string)
    requires a == "<" || a == "j"
    requires b == JAVASCRIPT + "script" || b == "ava" + JAVASCRIPT + "script:"
    ensures forall i :: 0 <= i < |a + b| ==> !IsControl((a + b)[i])
  {}

  lemma CleanedIs(s: string)
    ensures Cleaned(s) == ReplaceAll(ReplaceAll(Escaped(Stripped(s)), JAVASCRIPT, ""), VBSCRIPT, "")
  {}
}
