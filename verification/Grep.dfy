/** The matcher of grep.c against the language a pattern denotes. A C string is the sequence up to its NUL. */
module Grep {
  /* ---------- What a pattern means ---------- */

  datatype Regex =
    | Eps
    | Class(c: char)                 // '.' stands for every character
    | Cat(left: Regex, right: Regex)
    | Rep(body: Regex)

  predicate Accepts(c: char, x: char) {
    c == '.' || c == x
  }

  /** s is a word of r. */
  ghost predicate InLang(r: Regex, s: string)
    decreases r, |s|
  {
    match r
    case Eps => s == ""
    case Class(c) => |s| == 1 && Accepts(c, s[0])
    case Cat(a, b) => exists k :: 0 <= k <= |s| && InLang(a, s[..k]) && InLang(b, s[k..])
    case Rep(a) => s == "" || exists k :: 0 < k <= |s| && InLang(a, s[..k]) && InLang(r, s[k..])
  }

  /** The pattern without anchors: c* binds first, then a '$' at the very end, then single characters. */
  function Body(re: string): Regex {
    if re == "" then Eps
    else if |re| > 1 && re[1] == '*' then Cat(Rep(Class(re[0])), Body(re[2..]))
    else if re == "$" then Eps
    else Cat(Class(re[0]), Body(re[1..]))
  }

  predicate EndAnchored(re: string) {
    re != "" && re[|re| - 1] == '$'
  }

  predicate StartAnchored(re: string) {
    re != "" && re[0] == '^'
  }

  /** A word of re starts at the beginning of text, and ends at its end if re says so. */
  ghost predicate Here(re: string, text: string) {
    exists k :: 0 <= k <= |text| && (EndAnchored(re) ==> k == |text|) && InLang(Body(re), text[..k])
  }

  /** Some part of the line is a word of the pattern. */
  ghost predicate Found(re: string, text: string) {
    var body := if StartAnchored(re) then re[1..] else re;
    exists i, k | 0 <= i <= k <= |text| ::
      && (StartAnchored(re) ==> i == 0) && (EndAnchored(body) ==> k == |text|)
      && InLang(Body(body), text[i..k])
  }

  /* ---------- The matcher ---------- */

  lemma CharHere(c: char, rest: Regex, text: string, k: nat)
    requires k <= |text|
    ensures InLang(Cat(Class(c), rest), text[..k]) <==> k >= 1 && Accepts(c, text[0]) && InLang(rest, text[1..][..k - 1])
  {
    var s := text[..k];
    if InLang(Cat(Class(c), rest), s) {
      var m :| 0 <= m <= |s| && InLang(Class(c), s[..m]) && InLang(rest, s[m..]);
      assert s[m..] == text[1..][..k - 1];
    }
    if k >= 1 && Accepts(c, text[0]) && InLang(rest, text[1..][..k - 1]) {
      assert s[..1] == [text[0]] && s[1..] == text[1..][..k - 1];
      assert InLang(Class(c), s[..1]);
    }
  }

  /** A word of c*rest is a word of rest, or starts with one more c. */
  lemma StarHere(c: char, rest: Regex, text: string, k: nat)
    requires k <= |text|
    ensures var star := Cat(Rep(Class(c)), rest);
            InLang(star, text[..k]) <==> InLang(rest, text[..k]) || (k >= 1 && Accepts(c, text[0]) && InLang(star, text[1..][..k - 1]))
  {
    var s := text[..k];
    var star := Cat(Rep(Class(c)), rest);
    assert k >= 1 ==> text[1..][..k - 1] == s[1..];
    if InLang(star, s) { StarSplit(c, rest, s); }
    if InLang(rest, s) {
      assert s[..0] == "" && s[0..] == s;
      assert InLang(Rep(Class(c)), s[..0]);
    }
    if s != "" && Accepts(c, s[0]) && InLang(star, s[1..]) { StarGrow(c, rest, s); }
  }

  lemma StarSplit(c: char, rest: Regex, s: string)
    requires InLang(Cat(Rep(Class(c)), rest), s)
    ensures InLang(rest, s) || (s != "" && Accepts(c, s[0]) && InLang(Cat(Rep(Class(c)), rest), s[1..]))
  {
    var rep := Rep(Class(c));
    var m :| 0 <= m <= |s| && InLang(rep, s[..m]) && InLang(rest, s[m..]);
    if m == 0 {
      assert s[0..] == s;
    } else {
      var u, t := s[..m], s[1..];
      var j :| 0 < j <= |u| && InLang(Class(c), u[..j]) && InLang(rep, u[j..]);
      assert j == 1 && u[..1][0] == s[0];
      assert u[1..] == t[..m - 1];
      assert s[m..] == t[m - 1..];
    }
  }

  lemma StarGrow(c: char, rest: Regex, s: string)
    requires s != "" && Accepts(c, s[0]) && InLang(Cat(Rep(Class(c)), rest), s[1..])
    ensures InLang(Cat(Rep(Class(c)), rest), s)
  {
    var rep, t := Rep(Class(c)), s[1..];
    var m :| 0 <= m <= |t| && InLang(rep, t[..m]) && InLang(rest, t[m..]);
    var u := s[..m + 1];
    assert u[1..] == t[..m];
    assert s[m + 1..] == t[m..];
    assert u[..1] == [s[0]] && InLang(Class(c), u[..1]);
    assert InLang(rep, u);
  }

  ghost predicate StarFound(c: char, re: string, text: string) {
    exists k :: 0 <= k <= |text| && (EndAnchored(re) ==> k == |text|) && InLang(Cat(Rep(Class(c)), Body(re)), text[..k])
  }

  lemma StarStep(c: char, re: string, text: string)
    ensures StarFound(c, re, text) <==> Here(re, text) || (text != "" && Accepts(c, text[0]) && StarFound(c, re, text[1..]))
  {
    if StarFound(c, re, text) {
      var k :| 0 <= k <= |text| && (EndAnchored(re) ==> k == |text|) && InLang(Cat(Rep(Class(c)), Body(re)), text[..k]);
      StarHere(c, Body(re), text, k);
      assert !InLang(Body(re), text[..k]) ==> 0 <= k - 1 <= |text[1..]|;
    }
    if Here(re, text) {
      var k :| 0 <= k <= |text| && (EndAnchored(re) ==> k == |text|) && InLang(Body(re), text[..k]);
      StarHere(c, Body(re), text, k);
    }
    if text != "" && Accepts(c, text[0]) && StarFound(c, re, text[1..]) {
      var k :| 0 <= k <= |text[1..]| && (EndAnchored(re) ==> k == |text[1..]|) && InLang(Cat(Rep(Class(c)), Body(re)), text[1..][..k]);
      StarHere(c, Body(re), text, k + 1);
    }
  }

  lemma CharStep(re: string, text: string)
    requires re != "" && !(|re| > 1 && re[1] == '*') && re != "$"
    ensures Here(re, text) <==> text != "" && Accepts(re[0], text[0]) && Here(re[1..], text[1..])
  {
    var rest := re[1..];
    assert EndAnchored(re) <==> EndAnchored(rest);
    if Here(re, text) {
      var k :| 0 <= k <= |text| && (EndAnchored(re) ==> k == |text|) && InLang(Body(re), text[..k]);
      CharHere(re[0], Body(rest), text, k);
      assert 0 <= k - 1 <= |text[1..]|;
    }
    if text != "" && Accepts(re[0], text[0]) && Here(rest, text[1..]) {
      var k :| 0 <= k <= |text[1..]| && (EndAnchored(rest) ==> k == |text[1..]|) && InLang(Body(rest), text[1..][..k]);
      CharHere(re[0], Body(rest), text, k + 1);
    }
  }

  /** Whether c*re starts a text is a question of how many characters that c accepts come first. */
  lemma {:induction false} StarCount(c: char, re: string, text: string)
    ensures StarFound(c, re, text) <==>
      exists n :: 0 <= n <= |text| && (forall i :: 0 <= i < n ==> c == '.' || text[i] == c) && Here(re, text[n..])
    decreases |text|
  {
    hide StarFound, Here;
    StarStep(c, re, text);
    assert text[0..] == text;
    if text != "" {
      StarCount(c, re, text[1..]);
      forall n | 0 <= n < |text| ensures text[1..][n..] == text[n + 1..] {}
      if n :| 0 <= n <= |text| && (forall i :: 0 <= i < n ==> c == '.' || text[i] == c) && Here(re, text[n..]) {
        if n > 0 {
          assert Here(re, text[1..][n - 1..]);
          assert forall i :: 0 <= i < n - 1 ==> text[1..][i] == text[i + 1];
        }
      }
    }
  }

  /** The matcher's cases, in their order: they determine what it means that a pattern starts a text. */
  lemma HereExactly(re: string, text: string)
    ensures re == "" ==> Here(re, text)
    ensures |re| > 1 && re[1] == '*' ==>
      (Here(re, text) <==>
       exists n :: 0 <= n <= |text| && (forall i :: 0 <= i < n ==> re[0] == '.' || text[i] == re[0]) && Here(re[2..], text[n..]))
    ensures re == "$" ==> (Here(re, text) <==> text == "")
    ensures re != "" && !(|re| > 1 && re[1] == '*') && re != "$" ==>
      (Here(re, text) <==> text != "" && (re[0] == '.' || re[0] == text[0]) && Here(re[1..], text[1..]))
  {
    if re == "" {
      assert text[..0] == "" && InLang(Body(re), text[..0]);
    } else if |re| > 1 && re[1] == '*' {
      assert EndAnchored(re) <==> EndAnchored(re[2..]);
      StarCount(re[0], re[2..], text);
    } else if re == "$" {
      assert text[..|text|] == text;
    } else {
      CharStep(re, text);
    }
  }

  /** With ^ a match is one at the start, without it one anywhere, the empty end included. */
  lemma FoundExactly(re: string, text: string)
    ensures re != "" && re[0] == '^' ==> (Found(re, text) <==> Here(re[1..], text))
    ensures !(re != "" && re[0] == '^') ==> (Found(re, text) <==> exists i :: 0 <= i <= |text| && Here(re, text[i..]))
  {
    hide Here, Found;
    if StartAnchored(re) {
      AnchoredFound(re, text);
    } else if i :| 0 <= i <= |text| && Here(re, text[i..]) {
      HereFound(re, text, i);
    } else {
      NotHere(re, text);
    }
  }

  /** matchhere: a '.' or an equal character stands for itself, c* goes to matchstar, a last '$' wants the end. */
  method MatchHere(re: string, text: string) returns (b: bool)
    ensures b <==> Here(re, text)
    decreases |re|, 0
  {
    if re == "" {
      assert text[..0] == "" && InLang(Body(re), text[..0]);
      return true;
    }
    if |re| > 1 && re[1] == '*' {
      b := MatchStar(re[0], re[2..], text);
      assert EndAnchored(re) <==> EndAnchored(re[2..]);
      return;
    }
    if re == "$" {
      assert text[..|text|] == text;
      return text == "";
    }
    CharStep(re, text);
    if text != "" && (re[0] == '.' || re[0] == text[0]) {
      b := MatchHere(re[1..], text[1..]);
      return;
    }
    return false;
  }

  /** matchstar: shortest first, which succeeds exactly when some split does. */
  method MatchStar(c: char, re: string, text: string) returns (b: bool)
    ensures b <==> StarFound(c, re, text)
    decreases |re|, 1
  {
    var t := text;
    while true
      invariant StarFound(c, re, text) <==> StarFound(c, re, t)
      decreases |t|
    {
      StarStep(c, re, t);
      var here := MatchHere(re, t);
      if here { return true; }
      if t == "" || !(t[0] == c || c == '.') { break; }
      t := t[1..];
    }
    return false;
  }

  /** match: the pattern is searched for at every place of the line, the empty end included. */
  method Match(re: string, text: string) returns (b: bool)
    ensures b <==> Found(re, text)
  {
    if re != "" && re[0] == '^' {
      b := MatchHere(re[1..], text);
      AnchoredFound(re, text);
      return;
    }
    var i := 0;
    while true
      invariant i <= |text|
      invariant forall j :: 0 <= j < i ==> !Here(re, text[j..])
      decreases |text| - i
    {
      var here := MatchHere(re, text[i..]);
      if here { HereFound(re, text, i); return true; }
      if i == |text| { break; }
      i := i + 1;
    }
    NotHere(re, text);
    return false;
  }

  lemma AnchoredFound(re: string, text: string)
    requires StartAnchored(re)
    ensures Found(re, text) <==> Here(re[1..], text)
  {
    if Here(re[1..], text) {
      var k :| 0 <= k <= |text| && (EndAnchored(re[1..]) ==> k == |text|) && InLang(Body(re[1..]), text[..k]);
      assert text[0..k] == text[..k];
    }
    if Found(re, text) {
      var i, k :| 0 <= i <= k <= |text| && i == 0 && (EndAnchored(re[1..]) ==> k == |text|) && InLang(Body(re[1..]), text[i..k]);
      assert text[0..k] == text[..k];
    }
  }

  lemma HereFound(re: string, text: string, i: nat)
    requires !StartAnchored(re) && i <= |text| && Here(re, text[i..])
    ensures Found(re, text)
  {
    var t := text[i..];
    var k :| 0 <= k <= |t| && (EndAnchored(re) ==> k == |t|) && InLang(Body(re), t[..k]);
    assert t[..k] == text[i..i + k];
  }

  lemma NotHere(re: string, text: string)
    requires !StartAnchored(re) && forall j :: 0 <= j <= |text| ==> !Here(re, text[j..])
    ensures !Found(re, text)
  {
    forall i, k | 0 <= i <= k <= |text| && (EndAnchored(re) ==> k == |text|) ensures !InLang(Body(re), text[i..k]) {
      var t := text[i..];
      assert t[..k - i] == text[i..k];
      assert !Here(re, t);
    }
  }

  /* ---------- Lines out of a buffer ---------- */

  function Newline(s: string): (i: nat)
    ensures i <= |s| && '\n' !in s[..i] && (i < |s| ==> s[i] == '\n') && (i < |s| <==> '\n' in s)
  {
    if s == "" || s[0] == '\n' then 0
    else var i := 1 + Newline(s[1..]); assert s[..i] == [s[0]] + s[1..][..i - 1]; i
  }

  /** The finished lines of a text, without their newlines. */
  function Lines(s: string): seq<string>
    decreases |s|
  {
    if Newline(s) == |s| then [] else [s[..Newline(s)]] + Lines(s[Newline(s) + 1..])
  }

  /** The unfinished line at its end. */
  function Rest(s: string): string
    decreases |s|
  {
    if Newline(s) == |s| then s else Rest(s[Newline(s) + 1..])
  }

  function Join(parts: seq<string>): string {
    if parts == [] then "" else parts[0] + Join(parts[1..])
  }

  lemma {:induction false} FirstLine(a: string, b: string)
    requires '\n' !in a
    ensures Newline(a + b) == |a| + Newline(b)
  {
    if a == "" {
      assert a + b == b;
    } else {
      assert (a + b)[1..] == a[1..] + b;
      FirstLine(a[1..], b);
    }
  }

  /** A text with a newline: its first line, and what comes behind. */
  lemma FirstSplit(l: string, t: string)
    requires '\n' !in l
    ensures Newline(l + "\n" + t) == |l|
    ensures Lines(l + "\n" + t) == [l] + Lines(t) && Rest(l + "\n" + t) == Rest(t)
  {
    var s := l + "\n" + t;
    assert s == l + ("\n" + t);
    assert Newline("\n" + t) == 0;
    FirstLine(l, "\n" + t);
    assert s[..|l|] == l && s[|l| + 1..] == t;
  }

  /** Every text is either one unfinished line or a first line and more. */
  lemma Split(s: string) returns (l: string, t: string)
    ensures '\n' !in l && l == s[..Newline(s)]
    ensures if '\n' in s then s == l + "\n" + t && Newline(s) == |l| < |s| && t == s[Newline(s) + 1..] else l == s && Newline(s) == |s|
  {
    hide Newline;
    NewlineMeans(s);
    var i := Newline(s);
    l := s[..i];
    if i < |s| {
      t := s[i + 1..];
      Glue(s, i);
      assert [s[i]] == "\n";
    } else {
      t := "";
    }
  }

  lemma NewlineMeans(s: string)
    ensures Newline(s) <= |s| && '\n' !in s[..Newline(s)] && (Newline(s) < |s| <==> '\n' in s)
    ensures Newline(s) < |s| ==> s[Newline(s)] == '\n'
  {
  }

  lemma Glue(s: string, i: nat)
    requires i < |s|
    ensures s == s[..i] + [s[i]] + s[i + 1..]
  {
  }

  lemma NoLines(s: string)
    requires '\n' !in s
    ensures Lines(s) == [] && Rest(s) == s && Newline(s) == |s|
  {
  }

  lemma {:induction false} LinesJoin(a: string, b: string)
    ensures Lines(a + b) == Lines(a) + Lines(Rest(a) + b) && Rest(a + b) == Rest(Rest(a) + b)
    decreases |a|
  {
    hide Lines, Rest;
    var l, t := Split(a);
    if '\n' in a {
      FirstSplit(l, t);
      assert a + b == l + "\n" + (t + b);
      FirstSplit(l, t + b);
      LinesJoin(t, b);
    } else {
      NoLines(a);
      assert Lines(a) + Lines(a + b) == Lines(a + b);
    }
  }

  /** What grep keeps in its buffer: an unfinished line only if a finished one came before it. */
  function Kept(s: string): string {
    if '\n' in s then Rest(s) else ""
  }

  /** The lines of s before p, and what is left of s. */
  ghost predicate Done(s: string, p: nat, seen: seq<string>) {
    p <= |s| && Lines(s) == seen + Lines(s[p..]) && Rest(s) == Rest(s[p..]) && (p > 0 ==> '\n' in s)
  }

  lemma NoneDone(s: string)
    ensures Done(s, 0, []) && s[0..] == s
  {
    hide Lines, Rest;
    assert s[0..] == s && [] + Lines(s) == Lines(s);
  }

  lemma NextLine(s: string, p: nat, q: nat, seen: seq<string>)
    requires Done(s, p, seen) && p <= q < |s| && q == p + Newline(s[p..])
    ensures Done(s, q + 1, seen + [s[p..q]])
  {
    hide Lines, Rest, Newline;
    var t := s[p..];
    var l, u := Split(t);
    FirstSplit(l, u);
    assert l == s[p..q] && u == s[q + 1..];
    assert seen + ([l] + Lines(u)) == seen + [l] + Lines(u);
  }

  lemma AllDone(s: string, p: nat, seen: seq<string>)
    requires Done(s, p, seen) && p + Newline(s[p..]) == |s|
    ensures seen == Lines(s) && Kept(s) == if p == 0 then "" else s[p..]
  {
    hide Lines, Rest;
    NoLines(s[p..]);
    assert seen + [] == seen && (p == 0 ==> s[p..] == s);
  }

  /** The lines that grep looks at, read by read. */
  function Seen(m: string, parts: seq<string>): seq<string>
    decreases |parts|
  {
    if parts == [] then [] else Lines(m + parts[0]) + Seen(Kept(m + parts[0]), parts[1..])
  }

  /** A read returns at least one byte and no more than the buffer has room for. */
  predicate Fits(m: string, parts: seq<string>)
    decreases |parts|
  {
    parts == [] || (0 < |parts[0]| <= 1023 - |m| && Fits(Kept(m + parts[0]), parts[1..]))
  }

  /** No read without a newline comes before a read with one. */
  predicate NoneLost(parts: seq<string>) {
    parts == [] || (if '\n' in parts[0] then NoneLost(parts[1..]) else forall r :: r in parts ==> '\n' !in r)
  }

  lemma {:induction false} RestPlain(s: string)
    ensures '\n' !in Rest(s)
    decreases |s|
  {
    hide Lines, Rest;
    var l, t := Split(s);
    if '\n' in s { FirstSplit(l, t); RestPlain(t); } else { NoLines(s); }
  }

  lemma {:induction false} JoinPlain(parts: seq<string>)
    requires forall r :: r in parts ==> '\n' !in r
    ensures '\n' !in Join(parts)
  {
    if parts != [] { JoinPlain(parts[1..]); }
  }

  /** Reads without a newline show nothing. */
  lemma {:induction false} SeenPlain(parts: seq<string>)
    requires forall r :: r in parts ==> '\n' !in r
    ensures Seen("", parts) == []
  {
    if parts != [] {
      assert "" + parts[0] == parts[0];
      NoLines(parts[0]);
      SeenPlain(parts[1..]);
    }
  }

  /** However the input is cut into parts, grep looks at exactly its finished lines
      if and only if no read without a newline comes before a read with one. */
  lemma {:induction false} SeesAllLines(m: string, parts: seq<string>)
    requires '\n' !in m && forall r :: r in parts ==> r != ""
    ensures Seen(m, parts) == Lines(m + Join(parts)) <==> NoneLost(parts)
    decreases |parts|
  {
    hide Lines, Rest;
    if parts == [] {
      assert m + Join(parts) == m;
      NoLines(m);
    } else {
      var r, rs := parts[0], parts[1..];
      assert r in parts && forall q :: q in rs ==> q in parts;
      assert forall q :: q in parts ==> q == r || q in rs;
      var s := m + r;
      assert m + Join(parts) == s + Join(rs);
      if '\n' in r {
        assert '\n' in s;
        LinesJoin(s, Join(rs));
        RestPlain(s);
        SeesAllLines(Rest(s), rs);
        Cancel(Lines(s), Seen(Rest(s), rs), Lines(Rest(s) + Join(rs)));
      } else {
        DroppedPart(s, rs);
        NoLines(s);
        assert Seen(m, parts) == Seen("", rs);
      }
    }
  }

  /** A line that two reads bring in halves is not looked at; what is looked at is its second half. */
  lemma HalfLine()
    ensures Seen("", ["a", "b\n"]) == ["b"] && Lines(Join(["a", "b\n"])) == ["ab"]
  {
    hide Lines, Rest, Kept;
    NoLines("a");
    OneLine("b", "b\n");
    OneLine("ab", "ab\n");
    assert ["a", "b\n"][1..] == ["b\n"] && "" + "a" == "a" && "" + "b\n" == "b\n";
    assert Join(["b\n"]) == "b\n" && Join(["a", "b\n"]) == "ab\n";
    KeptPlain("a");
    assert Seen("", ["b\n"]) == ["b"] + Seen("", []);
  }

  lemma KeptPlain(s: string)
    requires '\n' !in s
    ensures Kept(s) == ""
  {
  }

  lemma OneLine(s: string, t: string)
    requires '\n' !in s && t == s + "\n"
    ensures Lines(t) == [s] && Kept(t) == ""
  {
    hide Newline;
    assert t[|s|] == '\n';
    NewlineAt(s, t);
    NoLines("");
    assert t[..|s|] == s && t[|s| + 1..] == "";
    assert Rest(t) == Rest(t[|s| + 1..]);
  }

  lemma NewlineAt(s: string, t: string)
    requires '\n' !in s && t == s + "\n"
    ensures Newline(t) == |s|
  {
    assert t[|s|] == '\n';
  }

  lemma Cancel(a: seq<string>, b: seq<string>, c: seq<string>)
    ensures a + b == a + c <==> b == c
  {
    assert (a + b)[|a|..] == b && (a + c)[|a|..] == c;
  }

  /** Once an unfinished line is thrown away, the rest shows every line only if it shows none. */
  lemma DroppedPart(s: string, rs: seq<string>)
    requires '\n' !in s && s != ""
    ensures Seen("", rs) == Lines(s + Join(rs)) <==> forall q :: q in rs ==> '\n' !in q
  {
    hide Lines, Rest, Seen, Join;
    if forall q :: q in rs ==> '\n' !in q {
      SeenPlain(rs);
      JoinPlain(rs);
      NoLines(s + Join(rs));
    } else {
      Lost(s, rs);
    }
  }

  /** The bytes of the lines looked at. */
  function Size(lines: seq<string>): nat {
    if lines == [] then 0 else |lines[0]| + 1 + Size(lines[1..])
  }

  lemma {:induction false} SizeJoin(a: seq<string>, b: seq<string>)
    ensures Size(a + b) == Size(a) + Size(b)
  {
    if a == [] { assert a + b == b; }
    else { assert (a + b)[1..] == a[1..] + b; SizeJoin(a[1..], b); }
  }

  /** An unfinished line in front only lengthens the first line, if there is one. */
  lemma PlainPrefix(s: string, t: string)
    requires '\n' !in s
    ensures Size(Lines(s + t)) == Size(Lines(t)) + if '\n' in t then |s| else 0
  {
    hide Lines, Rest;
    var l, u := Split(t);
    if '\n' in t {
      FirstSplit(l, u);
      assert s + t == (s + l) + "\n" + u;
      FirstSplit(s + l, u);
      SizeJoin([l], Lines(u));
      SizeJoin([s + l], Lines(u));
    } else {
      NoLines(t);
      NoLines(s + t);
    }
  }

  /** Nothing is ever added to a line: grep looks at no more bytes than the finished lines hold. */
  lemma {:induction false} SeenSize(m: string, parts: seq<string>)
    requires '\n' !in m
    ensures Size(Seen(m, parts)) <= Size(Lines(m + Join(parts)))
    decreases |parts|
  {
    hide Lines, Rest;
    if parts != [] {
      var rs, s := parts[1..], m + parts[0];
      assert m + Join(parts) == s + Join(rs);
      if '\n' in s {
        RestPlain(s);
        SeenSize(Rest(s), rs);
        LinesJoin(s, Join(rs));
        SizeJoin(Lines(s), Lines(Rest(s) + Join(rs)));
        SizeJoin(Lines(s), Seen(Rest(s), rs));
      } else {
        SeenSize("", rs);
        NoLines(s);
        assert "" + Join(rs) == Join(rs) && Lines(s) + Seen("", rs) == Seen("", rs);
        PlainPrefix(s, Join(rs));
      }
    }
  }

  /** A beginning that was thrown away is missing from a later line. */
  lemma Lost(s: string, rs: seq<string>)
    requires '\n' !in s && s != "" && exists q :: q in rs && '\n' in q
    ensures Seen("", rs) != Lines(s + Join(rs))
  {
    SeenSize("", rs);
    assert "" + Join(rs) == Join(rs);
    PlainPrefix(s, Join(rs));
    JoinNewline(rs);
  }

  lemma {:induction false} JoinNewline(parts: seq<string>)
    requires exists r :: r in parts && '\n' in r
    ensures '\n' in Join(parts)
  {
    if '\n' !in parts[0] {
      var r :| r in parts && '\n' in r;
      assert r in parts[1..];
      JoinNewline(parts[1..]);
    }
  }

  /** What grep writes for the lines it looked at. */
  ghost function Output(pattern: string, lines: seq<string>): string {
    if lines == [] then "" else (if Found(pattern, lines[0]) then lines[0] + "\n" else "") + Output(pattern, lines[1..])
  }

  lemma {:induction false} OutputJoin(pattern: string, a: seq<string>, b: seq<string>)
    ensures Output(pattern, a + b) == Output(pattern, a) + Output(pattern, b)
  {
    if a == [] { assert a + b == b; }
    else { assert (a + b)[1..] == a[1..] + b; OutputJoin(pattern, a[1..], b); }
  }

  /* ---------- The buffer ---------- */

  /** strchr: the place of the first newline from p on, or the end of the text. */
  method FindNewline(buf: array<char>, p: nat, m: nat) returns (q: nat)
    requires p <= m <= buf.Length
    ensures q == p + Newline(buf[p..m])
  {
    q := p;
    while q < m && buf[q] != '\n'
      invariant p <= q <= m && '\n' !in buf[p..q]
    {
      assert buf[p..q + 1] == buf[p..q] + [buf[q]];
      q := q + 1;
    }
    assert buf[p..m] == buf[p..q] + buf[q..m];
    FirstLine(buf[p..q], buf[q..m]);
  }

  /** The m bytes from p on move to the front of the buffer. */
  method MoveDown(buf: array<char>, p: nat, m: nat)
    requires p + m <= buf.Length
    modifies buf
    ensures buf[..m] == old(buf[p..p + m])
  {
    forall j | 0 <= j < m { buf[j] := buf[p + j]; }
  }

  /** The line between p and q is written out, newline and all, if it matches. */
  method Show(pattern: string, buf: array<char>, p: nat, q: nat) returns (out: string)
    requires p <= q < buf.Length && buf[q] == '\n'
    modifies buf
    ensures out == if Found(pattern, old(buf[p..q])) then old(buf[p..q]) + "\n" else ""
    ensures forall j :: 0 <= j < buf.Length && j != q ==> buf[j] == old(buf[j])
  {
    hide Found;
    out := "";
    ghost var line := buf[p..q];
    buf[q] := '\0';
    assert buf[p..q] == line;
    var hit := Match(pattern, buf[p..q]);
    if hit {
      buf[q] := '\n';
      out := buf[p..q + 1];
      assert out == line + "\n";
    }
  }

  /** The same for a line of s, of which the buffer still has all from p to m. */
  method ShowLine(pattern: string, buf: array<char>, p: nat, q: nat, m: nat, ghost s: string) returns (out: string)
    requires p <= q < m == |s| <= buf.Length && buf[p..m] == s[p..] && s[q] == '\n'
    modifies buf
    ensures out == if Found(pattern, s[p..q]) then s[p..q] + "\n" else ""
    ensures buf[q + 1..m] == s[q + 1..]
  {
    hide Found;
    assert buf[p..m][q - p] == s[p..][q - p];
    assert buf[p..q] == buf[p..m][..q - p] == s[p..q];
    assert buf[q + 1..m] == buf[p..m][q + 1 - p..] == s[q + 1..];
    out := Show(pattern, buf, p, q);
  }

  /** One turn of the loop in grep: the finished lines are looked at, the rest moves to the front. */
  method TakeLines(pattern: string, buf: array<char>, len: nat) returns (m: nat, out: string)
    requires len <= buf.Length
    modifies buf
    ensures m <= len && buf[..m] == Kept(old(buf[..len]))
    ensures out == Output(pattern, Lines(old(buf[..len])))
  {
    hide Lines, Rest, Output, Newline, Found, Kept, Done;
    ghost var s := buf[..len];
    m, out := len, "";
    var p: nat := 0;
    var q := FindNewline(buf, p, m);
    ghost var seen: seq<string> := [];
    OutputNone(pattern);
    NoneDone(s);
    while q < m
      invariant p <= q <= m == |s| && q == p + Newline(s[p..]) && buf[p..m] == s[p..]
      invariant Done(s, p, seen) && out == Output(pattern, seen)
    {
      ghost var line := s[p..q];
      NextLine(s, p, q, seen);
      var shown := ShowLine(pattern, buf, p, q, m, s);
      out := out + shown;
      OutputOne(pattern, seen, line);
      seen := seen + [line];
      p := q + 1;
      q := FindNewline(buf, p, m);
    }
    AllDone(s, p, seen);
    if p == 0 {
      m := 0;
    }
    if m > 0 {
      m := m - p;
      MoveDown(buf, p, m);
    }
  }

  method Grep(pattern: string, parts: seq<string>) returns (out: string)
    requires Fits("", parts)
    ensures out == Output(pattern, Seen("", parts))
  {
    hide Lines, Rest, Output, Kept;
    var buf := new char[1024];
    var m: nat, i: nat := 0, 0;
    out := "";
    ghost var seen: seq<string> := [];
    OutputNone(pattern);
    while i < |parts|
      invariant i <= |parts| && m <= 1023 && Fits(buf[..m], parts[i..])
      invariant Seen("", parts) == seen + Seen(buf[..m], parts[i..]) && out == Output(pattern, seen)
    {
      var n := |parts[i]|;
      ghost var s := buf[..m] + parts[i];
      forall j | 0 <= j < n { buf[m + j] := parts[i][j]; }
      m := m + n;
      buf[m] := '\0';
      assert buf[..m] == s;
      var found;
      m, found := TakeLines(pattern, buf, m);
      OutputJoin(pattern, seen, Lines(s));
      out, seen := out + found, seen + Lines(s);
      assert parts[i..][1..] == parts[i + 1..];
      i := i + 1;
    }
    assert Seen(buf[..m], parts[i..]) == [] && seen + [] == seen;
  }

  lemma OutputNone(pattern: string)
    ensures Output(pattern, []) == ""
  {
  }

  lemma OutputOne(pattern: string, seen: seq<string>, line: string)
    ensures Output(pattern, seen + [line]) == Output(pattern, seen) + if Found(pattern, line) then line + "\n" else ""
  {
    OutputJoin(pattern, seen, [line]);
    assert Output(pattern, [line]) == (if Found(pattern, line) then line + "\n" else "") + Output(pattern, []);
  }
}