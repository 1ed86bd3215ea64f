/** The string operations the source applies to names and form fields:
    Python's `str.strip()` and `str.lower()`, restricted to ASCII. */
module Text {

  /** The ASCII characters `str.isspace()` accepts: tab to carriage return,
      the four separators 0x1C-0x1F, and the space. */
  predicate IsSpace(c: char) {
    9 <= c as int <= 13 || 28 <= c as int <= 32
  }

  /** Text with no leading or trailing white space. */
  predicate Trimmed(s: string) {
    s == [] || (!IsSpace(s[0]) && !IsSpace(s[|s| - 1]))
  }

  /** `str.lstrip()`: the longest suffix that does not start with white space. */
  function TrimStart(s: string): (r: string)
    ensures r == [] || !IsSpace(r[0])
    ensures |r| <= |s| && r == s[|s| - |r|..]
  {
    if s != [] && IsSpace(s[0]) then TrimStart(s[1..]) else s
  }

  /** `str.rstrip()`: the longest prefix that does not end with white space. */
  function TrimEnd(s: string): (r: string)
    ensures r == [] || !IsSpace(r[|r| - 1])
    ensures |r| <= |s| && r == s[..|r|]
  {
    if s != [] && IsSpace(s[|s| - 1]) then TrimEnd(s[..|s| - 1]) else s
  }

  /** `str.strip()`. */
  function Trim(s: string): (r: string)
    ensures Trimmed(r) && |r| <= |s|
  {
    TrimEnd(TrimStart(s))
  }

  /** `str.lstrip()` removes only white space. */
  lemma {:induction false} TrimStartSkipsSpace(s: string)
    ensures forall k | 0 <= k < |s| - |TrimStart(s)| :: IsSpace(s[k])
    decreases |s|
  {
    if s != [] && IsSpace(s[0]) {
      TrimStartSkipsSpace(s[1..]);
      forall k | 1 <= k < |s| - |TrimStart(s)|
        ensures IsSpace(s[k])
      {
        assert s[k] == s[1..][k - 1];
      }
    }
  }

  /** `str.rstrip()` removes only white space. */
  lemma {:induction false} TrimEndSkipsSpace(s: string)
    ensures forall k | |TrimEnd(s)| <= k < |s| :: IsSpace(s[k])
    decreases |s|
  {
    if s != [] && IsSpace(s[|s| - 1]) {
      TrimEndSkipsSpace(s[..|s| - 1]);
      forall k | |TrimEnd(s)| <= k < |s| - 1
        ensures IsSpace(s[k])
      {
        assert s[k] == s[..|s| - 1][k];
      }
    }
  }

  /** Stripping removes only outer white space: the result is the part of
      `s` between its leading white space (`i` characters) and its trailing
      white space (which it has none of, by `Trim`'s contract). */
  lemma {:induction false} TrimRemovesOnlyOuterSpace(s: string)
    ensures var r, i := Trim(s), |s| - |TrimStart(s)|;
      && i + |r| <= |s|
      && (forall k | 0 <= k < |r| :: r[k] == s[i + k])
      && (forall k | 0 <= k < i :: IsSpace(s[k]))
      && (forall k | i + |r| <= k < |s| :: IsSpace(s[k]))
  {
    var t := TrimStart(s);
    var r := TrimEnd(t);
    TrimStartSkipsSpace(s);
    TrimEndSkipsSpace(t);
    OuterSlice(s, t, r);
    assert Trim(s) == r;
  }

  /** A prefix `r` of a suffix `t` of `s` is a slice of `s`; when only white
      space precedes `t` in `s` and follows `r` in `t`, only white space
      surrounds `r` in `s`. */
  lemma OuterSlice(s: string, t: string, r: string)
    requires |t| <= |s| && t == s[|s| - |t|..] && |r| <= |t| && r == t[..|r|]
    requires forall k | 0 <= k < |s| - |t| :: IsSpace(s[k])
    requires forall k | |r| <= k < |t| :: IsSpace(t[k])
    ensures var i := |s| - |t|;
      && i + |r| <= |s|
      && (forall k | 0 <= k < |r| :: r[k] == s[i + k])
      && (forall k | 0 <= k < i :: IsSpace(s[k]))
      && (forall k | i + |r| <= k < |s| :: IsSpace(s[k]))
  {
    var i := |s| - |t|;
    forall k | i + |r| <= k < |s|
      ensures IsSpace(s[k])
    {
      assert s[k] == t[k - i];
    }
  }

  function LowerChar(c: char): (r: char)
    ensures IsSpace(r) == IsSpace(c)
    ensures !('A' <= r <= 'Z')
  {
    if 'A' <= c <= 'Z' then (c as int + 32) as char else c
  }

  /** `str.lower()`: the same text up to letter case, without capitals. */
  function Lower(s: string): (r: string)
    ensures |r| == |s|
    ensures forall i | 0 <= i < |r| :: !('A' <= r[i] <= 'Z')
    ensures forall i | 0 <= i < |r| :: LowerChar(r[i]) == LowerChar(s[i])
  {
    seq(|s|, i requires 0 <= i < |s| => LowerChar(s[i]))
  }

  /** The tag-name normalisation `name.strip().lower()`. */
  function Normalize(s: string): (r: string)
    ensures Trimmed(r) && |r| <= |s|
  {
    Lower(Trim(s))
  }

  /** The normalised name is the stripped name up to letter case, without
      capitals. */
  lemma {:induction false} NormalizeIsStrippedLowerCase(s: string)
    ensures var r, t := Normalize(s), Trim(s);
      && Trimmed(r) && |r| == |t|
      && (forall i | 0 <= i < |r| :: !('A' <= r[i] <= 'Z'))
      && (forall i | 0 <= i < |r| :: LowerChar(r[i]) == LowerChar(t[i]))
  {
    var t := Trim(s);
    assert Normalize(s) == Lower(t);
  }

  lemma {:induction false} TrimOfTrimmed(s: string)
    requires Trimmed(s)
    ensures Trim(s) == s
  {
    assert TrimStart(s) == s;
    assert TrimEnd(s) == s;
  }

  lemma LowerTwice(s: string)
    ensures Lower(Lower(s)) == Lower(s)
  {
  }

  /** Normalising an already normalised name changes nothing, so every name
      has exactly one stored form. */
  lemma {:induction false} NormalizeIdempotent(s: string)
    ensures Normalize(Normalize(s)) == Normalize(s)
  {
    var t := Trim(s);
    var n := Normalize(s);
    assert n == Lower(t);
    TrimOfTrimmed(n);
    LowerTwice(t);
    calc {
      Normalize(n);
      Lower(Trim(n));
      Lower(n);
      Lower(Lower(t));
      n;
    }
  }

  /** Names that differ only in surrounding white space and letter case
      normalise to the same stored name. */
  lemma NormalizeExample()
    ensures Normalize("Django ") == Normalize("django") == "django"
  {
    assert Normalize("Django ") == "django" by {
      DjangoSpaced();
      DjangoTrimmed();
      LowerDjango();
      assert Normalize("Django") == Lower("Django");
    }
    assert Normalize("django") == "django" by {
      DjangoTrimmed();
      LowerDjango();
    }
  }

  /** The example's facts about literals, kept apart from each other. */
  lemma DjangoSpaced()
    ensures Normalize("Django ") == Normalize("Django")
  {
    var c := ' ';
    assert IsSpace(c);
    assert "Django " == "Django" + [c];
    NormalizeIgnoresOuterSpace("Django", c);
  }

  lemma DjangoTrimmed()
    ensures Trim("Django") == "Django" && Trim("django") == "django"
  {
    assert "Django"[0] == 'D' && "Django"[5] == 'o';
    assert "django"[0] == 'd' && "django"[5] == 'o';
    TrimOfTrimmed("Django");
    TrimOfTrimmed("django");
  }

  lemma LowerDjango()
    ensures Lower("Django") == "django" && Lower("django") == "django"
  {
    var r, q := Lower("Django"), Lower("django");
    assert r[0] == LowerChar('D') == 'd';
    assert r[1] == 'j' && r[2] == 'a' && r[3] == 'n' && r[4] == 'g' && r[5] == 'o';
    assert q[0] == 'd' && q[1] == 'j' && q[2] == 'a' && q[3] == 'n' && q[4] == 'g' && q[5] == 'o';
  }

  /** Lower-casing keeps white space where it is, so stripping can come
      before or after it. */
  lemma {:induction false} TrimStartLower(s: string)
    ensures TrimStart(Lower(s)) == Lower(TrimStart(s))
    decreases |s|
  {
    if s != [] {
      assert Lower(s)[0] == LowerChar(s[0]);
      if IsSpace(s[0]) {
        assert Lower(s)[1..] == Lower(s[1..]);
        TrimStartLower(s[1..]);
      }
    }
  }

  lemma {:induction false} TrimEndLower(s: string)
    ensures TrimEnd(Lower(s)) == Lower(TrimEnd(s))
    decreases |s|
  {
    if s != [] {
      assert Lower(s)[|s| - 1] == LowerChar(s[|s| - 1]);
      if IsSpace(s[|s| - 1]) {
        assert Lower(s)[..|s| - 1] == Lower(s[..|s| - 1]);
        TrimEndLower(s[..|s| - 1]);
      }
    }
  }

  /** Names that differ only in letter case normalise alike. */
  lemma {:induction false} NormalizeIgnoresCase(s: string)
    ensures Normalize(Lower(s)) == Normalize(s)
  {
    TrimStartLower(s);
    TrimEndLower(TrimStart(s));
    assert Trim(Lower(s)) == Lower(Trim(s));
    LowerTwice(Trim(s));
  }

  /** White space added after a name is stripped along with the rest. */
  lemma {:induction false} TrimAppendSpace(s: string, c: char)
    requires IsSpace(c)
    ensures Trim(s + [c]) == Trim(s)
    decreases |s|
  {
    if s == [] {
      assert TrimStart([c]) == TrimStart([]);
    } else if IsSpace(s[0]) {
      assert (s + [c])[1..] == s[1..] + [c];
      TrimAppendSpace(s[1..], c);
    } else {
      assert (s + [c])[..|s|] == s;
    }
  }

  /** Names that differ only in surrounding white space normalise alike. */
  lemma {:induction false} NormalizeIgnoresOuterSpace(s: string, c: char)
    requires IsSpace(c)
    ensures Normalize([c] + s) == Normalize(s)
    ensures Normalize(s + [c]) == Normalize(s)
  {
    TrimPrependSpace(s, c);
    TrimAppendSpace(s, c);
  }

  /** White space added before a name is stripped with the rest. */
  lemma TrimPrependSpace(s: string, c: char)
    requires IsSpace(c)
    ensures Trim([c] + s) == Trim(s)
  {
    assert ([c] + s)[1..] == s;
    assert TrimStart([c] + s) == TrimStart(s);
  }
}
