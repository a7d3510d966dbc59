/** `normalize_team_name`: the key under which the merge script matches team
    names across the statistics endpoints. Lower-casing, then `&` becomes
    `and`, then every `.` is dropped, then surrounding whitespace is stripped;
    a missing or empty name gives the empty key. */
module TeamNames {
  import opened Common
  import opened Seqs

  predicate IsUpperAscii(c: char) {
    'A' <= c <= 'Z'
  }

  /** The characters Python's `str.strip()` removes (those for which `str.isspace()` holds). */
  predicate IsSpace(c: char) {
    c == ' ' || ('\t' <= c <= '\r') || ('\U{1C}' <= c <= '\U{1F}') ||
    c == '\U{85}' || c == '\U{A0}' || c == '\U{1680}' ||
    ('\U{2000}' <= c <= '\U{200A}') || c == '\U{2028}' || c == '\U{2029}' ||
    c == '\U{202F}' || c == '\U{205F}' || c == '\U{3000}'
  }

  function LowerChar(c: char): (d: char)
    ensures !IsUpperAscii(d)
    ensures !IsUpperAscii(c) ==> d == c
  {
    if IsUpperAscii(c) then (c as int - 'A' as int + 'a' as int) as char else c
  }

  predicate NoUpper(s: string) {
    forall c :: c in s ==> !IsUpperAscii(c)
  }

  /** `s.lower()` on ASCII letters. */
  function Lower(s: string): string {
    if |s| == 0 then "" else [LowerChar(s[0])] + Lower(s[1..])
  }

  /** Lower-casing maps every character on its own, leaves no capital, and
      changes nothing in text without capitals. */
  lemma {:induction false} LowerFacts(s: string)
    ensures |Lower(s)| == |s| && forall i :: 0 <= i < |s| ==> Lower(s)[i] == LowerChar(s[i])
    ensures NoUpper(Lower(s))
    ensures NoUpper(s) ==> Lower(s) == s
  {
    if |s| > 0 {
      LowerFacts(s[1..]);
      assert forall i :: 1 <= i < |s| ==> s[i] == s[1..][i - 1];
      if NoUpper(s) {
        assert s[0] in s;
        assert NoUpper(s[1..]) by {
          assert forall c :: c in s[1..] ==> c in s;
        }
      }
    }
  }

  /** `s.replace("&", "and")`. */
  function ReplaceAmpersand(s: string): string {
    if |s| == 0 then ""
    else if s[0] == '&' then "and" + ReplaceAmpersand(s[1..])
    else [s[0]] + ReplaceAmpersand(s[1..])
  }

  /** After the rewrite no `&` is left. */
  lemma {:induction false} ReplaceAmpersandRemovesAll(s: string)
    ensures '&' !in ReplaceAmpersand(s)
  {
    if |s| > 0 {
      ReplaceAmpersandRemovesAll(s[1..]);
      assert '&' !in "and";
    }
  }

  lemma {:induction false} ReplaceAmpersandKeepsLowerCase(s: string)
    requires NoUpper(s)
    ensures NoUpper(ReplaceAmpersand(s))
  {
    if |s| > 0 {
      assert NoUpper(s[1..]) by {
        assert forall c :: c in s[1..] ==> c in s;
      }
      ReplaceAmpersandKeepsLowerCase(s[1..]);
      assert NoUpper("and");
    }
  }

  lemma {:induction false} ReplaceAmpersandWithoutAmpersand(s: string)
    requires '&' !in s
    ensures ReplaceAmpersand(s) == s
  {
    if |s| > 0 {
      assert s[0] in s;
      assert '&' !in s[1..];
      ReplaceAmpersandWithoutAmpersand(s[1..]);
    }
  }

  predicate NotDot(c: char) {
    c != '.'
  }

  /** `s.replace(".", "")`. */
  function DropDots(s: string): string {
    Filter(s, NotDot)
  }

  /** Dropping dots leaves no dot, brings in no new character, and changes
      nothing in text without dots. */
  lemma DropDotsFacts(s: string)
    ensures '.' !in DropDots(s)
    ensures forall c :: c in DropDots(s) ==> c in s
    ensures '.' !in s ==> DropDots(s) == s
  {
    FilterMembers(s, NotDot, '.');
    if '.' !in s {
      FilterKeepsAll(s, NotDot);
    }
  }

  function StripStart(s: string): string {
    if |s| > 0 && IsSpace(s[0]) then StripStart(s[1..]) else s
  }

  function StripEnd(s: string): string {
    if |s| > 0 && IsSpace(s[|s| - 1]) then StripEnd(s[..|s| - 1]) else s
  }

  /** `lstrip()` keeps a suffix that does not start with whitespace, and
      removes only whitespace. */
  lemma {:induction false} StripStartFacts(s: string)
    ensures var r := StripStart(s); |r| <= |s| && r == s[|s| - |r|..] && (|r| > 0 ==> !IsSpace(r[0]))
    ensures var r := StripStart(s); forall i :: 0 <= i < |s| - |r| ==> IsSpace(s[i])
  {
    if |s| > 0 && IsSpace(s[0]) {
      StripStartFacts(s[1..]);
      assert forall i :: 1 <= i < |s| ==> s[i] == s[1..][i - 1];
    }
  }

  /** `rstrip()` keeps a prefix that does not end with whitespace, and
      removes only whitespace. */
  lemma {:induction false} StripEndFacts(s: string)
    ensures var r := StripEnd(s); |r| <= |s| && r == s[..|r|] && (|r| > 0 ==> !IsSpace(r[|r| - 1]))
    ensures var r := StripEnd(s); forall i :: |r| <= i < |s| ==> IsSpace(s[i])
  {
    if |s| > 0 && IsSpace(s[|s| - 1]) {
      StripEndFacts(s[..|s| - 1]);
      assert forall i :: 0 <= i < |s| - 1 ==> s[i] == s[..|s| - 1][i];
    }
  }

  /** `s.strip()`. */
  function Strip(s: string): string {
    StripEnd(StripStart(s))
  }

  /** `strip()` keeps a contiguous piece of `s` with no whitespace at either
      end, removes only whitespace around it, and changes nothing when `s`
      has none there. */
  lemma StripFacts(s: string)
    ensures exists i, j ::
              0 <= i <= j <= |s| && Strip(s) == s[i..j] &&
              (forall k :: 0 <= k < i ==> IsSpace(s[k])) && (forall k :: j <= k < |s| ==> IsSpace(s[k]))
    ensures forall c :: c in Strip(s) ==> c in s
    ensures |Strip(s)| > 0 ==> !IsSpace(Strip(s)[0]) && !IsSpace(Strip(s)[|Strip(s)| - 1])
    ensures |s| == 0 || (!IsSpace(s[0]) && !IsSpace(s[|s| - 1])) ==> Strip(s) == s
  {
    var i, j := StripBounds(s);
    var t := StripStart(s);
    StripStartFacts(s);
    StripEndFacts(t);
    var r := StripEnd(t);
    assert forall c :: c in r ==> c in t;
    assert forall c :: c in t ==> c in s;
    if |r| > 0 {
      assert r[0] == t[0];
    }
  }

  /** Where the piece `strip()` keeps begins and ends in `s`. */
  lemma StripBounds(s: string) returns (i: int, j: int)
    ensures 0 <= i <= j <= |s| && Strip(s) == s[i..j]
    ensures forall k :: 0 <= k < i ==> IsSpace(s[k])
    ensures forall k :: j <= k < |s| ==> IsSpace(s[k])
  {
    var t := StripStart(s);
    StripStartFacts(s);
    StripEndFacts(t);
    var r := StripEnd(t);
    i := |s| - |t|;
    j := i + |r|;
    assert r == s[i..j];
    assert forall k :: j <= k < |s| ==> s[k] == t[k - i];
  }

  /** A key is clean when it holds no `&`, no `.`, no ASCII capital and no
      whitespace at either end. */
  predicate IsNormalized(key: string) {
    '&' !in key && '.' !in key &&
    NoUpper(key) &&
    (|key| > 0 ==> !IsSpace(key[0]) && !IsSpace(key[|key| - 1]))
  }

  /** `normalize_team_name(name)`. */
  function NormalizeTeamName(name: Option<string>): (key: string)
    ensures IsNormalized(key)
    ensures !TruthyText(name) ==> key == ""
  {
    if TruthyText(name) then
      var lowered := Lower(name.value);
      var replaced := ReplaceAmpersand(lowered);
      var dropped := DropDots(replaced);
      LowerFacts(name.value);
      ReplaceAmpersandRemovesAll(lowered);
      ReplaceAmpersandKeepsLowerCase(lowered);
      DropDotsFacts(replaced);
      StripFacts(dropped);
      Strip(dropped)
    else ""
  }

  /** Normalising a normalised name changes nothing. */
  lemma NormalizeIsIdempotent(name: Option<string>)
    ensures NormalizeTeamName(Some(NormalizeTeamName(name))) == NormalizeTeamName(name)
  {
    var key := NormalizeTeamName(name);
    if key != "" {
      LowerFacts(key);
      ReplaceAmpersandWithoutAmpersand(key);
      DropDotsFacts(key);
      StripFacts(key);
    }
  }

  /** `replace` works piecewise: rewriting a concatenation rewrites each part. */
  lemma {:induction false} ReplaceAmpersandAppend(a: string, b: string)
    ensures ReplaceAmpersand(a + b) == ReplaceAmpersand(a) + ReplaceAmpersand(b)
  {
    if |a| == 0 {
      assert a + b == b;
    } else {
      var c, t := a[0], a[1..];
      assert a == [c] + t;
      assert a + b == [c] + (t + b);
      ReplaceAmpersandCons(c, t + b);
      ReplaceAmpersandCons(c, t);
      ReplaceAmpersandAppend(t, b);
      var head := if c == '&' then "and" else [c];
      assert head + (ReplaceAmpersand(t) + ReplaceAmpersand(b)) == (head + ReplaceAmpersand(t)) + ReplaceAmpersand(b);
    }
  }

  lemma ReplaceAmpersandCons(c: char, t: string)
    ensures ReplaceAmpersand([c] + t) == (if c == '&' then "and" else [c]) + ReplaceAmpersand(t)
  {
    assert ([c] + t)[0] == c && ([c] + t)[1..] == t;
  }

  /** The ampersand of "Texas A&M" becomes "and" after lower-casing. */
  lemma TexasAandM(name: string)
    requires name == "Texas A&M"
    ensures NormalizeTeamName(Some(name)) == "texas aandm"
  {
    var lowered := Lower(name);
    LowerTexasAandM(name);
    var replaced := ReplaceAmpersand(lowered);
    RewriteTexasAandM(lowered);
    var dropped := DropDots(replaced);
    NoDotsInTexasAandM(replaced);
    StripUnspaced(dropped);
  }

  /** Text that neither starts nor ends with whitespace is left as it is by `strip()`. */
  lemma StripUnspaced(s: string)
    requires |s| > 0 && !IsSpace(s[0]) && !IsSpace(s[|s| - 1])
    ensures Strip(s) == s
  {
  }

  lemma LowerTexasAandM(s: string)
    requires s == "Texas A&M"
    ensures Lower(s) == "texas a&m"
  {
    LowerInTexasAandM();
  }

  lemma LowerInTexasAandM()
    ensures Lower("Texas A&M") == "texas a&m"
  {
    assert LowerChar('T') == 't' && LowerChar('A') == 'a' && LowerChar('M') == 'm';
  }

  lemma RewriteTexasAandM(s: string)
    requires s == "texas a&m"
    ensures ReplaceAmpersand(s) == "texas aandm"
  {
    ReplaceInTexasAandM();
  }

  lemma ReplaceInTexasAandM()
    ensures ReplaceAmpersand("texas a&m") == "texas aandm"
  {
    assert "texas a&m" == "texas a" + "&m";
    ReplaceAmpersandAppend("texas a", "&m");
    assert '&' !in "texas a";
    ReplaceAmpersandWithoutAmpersand("texas a");
    assert ReplaceAmpersand("&m") == "andm" by {
      assert ReplaceAmpersand("m") == "m";
    }
    assert "texas a" + "andm" == "texas aandm";
  }

  lemma NoDotsInTexasAandM(s: string)
    requires s == "texas aandm"
    ensures DropDots(s) == "texas aandm"
  {
    assert '.' !in "texas aandm";
    DropDotsFacts("texas aandm");
  }
}
