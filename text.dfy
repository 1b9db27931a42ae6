/**
 * The few Python `str` operations the monitored code relies on, over `seq<char>`:
 * `startswith`, `endswith`, `in`, `lower`, `replace('.exe', '')`, `split('-')[1]`
 * and the built-in `int(...)` on a string.
 */
module Text {
  import opened Wrappers

  predicate StartsWith(s: string, prefix: string)
  {
    |prefix| <= |s| && s[..|prefix|] == prefix
  }

  predicate EndsWith(s: string, suffix: string)
  {
    |suffix| <= |s| && s[|s| - |suffix|..] == suffix
  }

  /** Python's `sub in s`. */
  predicate Contains(s: string, sub: string)
  {
    exists i :: 0 <= i <= |s| && StartsWith(s[i..], sub)
  }

  // ---------------------------------------------------------------------------
  // Lower-casing

  function LowerChar(c: char): char
  {
    if 'A' <= c <= 'Z' then (c as int + 32) as char else c
  }

  /** `s.lower()`, for ASCII letters (see README: Unicode case mapping is not modelled). */
  function Lower(s: string): string
  {
    seq(|s|, i requires 0 <= i < |s| => LowerChar(s[i]))
  }

  // ---------------------------------------------------------------------------
  // `name.replace('.exe', '')`

  /**
   * Removes every occurrence of ".exe", scanning left to right and never
   * re-examining text that has already been kept, as `str.replace` does.
   */
  function StripExe(s: string): string
    decreases |s|
  {
    if |s| < 4 then s
    else if s[..4] == ".exe" then StripExe(s[4..])
    else [s[0]] + StripExe(s[1..])
  }

  /** A name without ".exe" in it is reported unchanged. */
  lemma {:induction false} StripExeKeepsPlainNames(s: string)
    requires !Contains(s, ".exe")
    ensures StripExe(s) == s
    decreases |s|
  {
    if |s| >= 4 {
      assert StartsWith(s[0..], ".exe") ==> Contains(s, ".exe");
      assert s[0..] == s;
      assert s[..4] != ".exe";
      assert !Contains(s[1..], ".exe") by {
        forall i | 0 <= i <= |s[1..]|
          ensures !StartsWith(s[1..][i..], ".exe")
        {
          assert s[1..][i..] == s[i + 1..];
          assert !StartsWith(s[i + 1..], ".exe");
        }
      }
      StripExeKeepsPlainNames(s[1..]);
      assert [s[0]] + s[1..] == s;
    }
  }

  /** A name without a '.' cannot hold ".exe" and is reported unchanged. */
  lemma {:induction false} StripExeKeepsDotlessNames(s: string)
    requires '.' !in s
    ensures StripExe(s) == s
    decreases |s|
  {
    if |s| >= 4 {
      assert s[..4][0] == s[0];
      assert s[0] in s;
      assert forall c :: c in s[1..] ==> c in s;
      StripExeKeepsDotlessNames(s[1..]);
      assert [s[0]] + s[1..] == s;
    }
  }

  /** A trailing ".exe" is always removed, whatever precedes it: "dnplayer.exe" is reported as "dnplayer". */
  lemma {:induction false} StripExeDropsSuffix(s: string)
    ensures StripExe(s + ".exe") == StripExe(s)
    decreases |s|
  {
    var t := s + ".exe";
    if |s| == 0 {
      assert t == ".exe";
      assert t[4..] == "";
    } else if |s| >= 4 && s[..4] == ".exe" {
      assert t[..4] == ".exe";
      assert t[4..] == s[4..] + ".exe";
      StripExeDropsSuffix(s[4..]);
    } else {
      // An occurrence cannot straddle the end of s: the suffix's '.' would have
      // to sit at position 1, 2 or 3 of the pattern, where ".exe" has no '.'.
      assert t[..4] != ".exe" by {
        if |s| < 4 {
          assert t[|s|] == '.';
          assert ".exe"[|s|] != '.';
        } else {
          assert t[..4] == s[..4];
        }
      }
      assert t[1..] == s[1..] + ".exe";
      StripExeDropsSuffix(s[1..]);
      if |s| < 4 {
        assert StripExe(s[1..]) == s[1..];
        assert [s[0]] + s[1..] == s;
      }
    }
  }

  /** A dotless name with ".exe" appended is reported as the bare name: "dnplayer.exe" as "dnplayer". */
  lemma StripExeOfExecutable(s: string)
    requires '.' !in s
    ensures StripExe(s + ".exe") == s
  {
    StripExeKeepsDotlessNames(s);
    StripExeDropsSuffix(s);
  }

  /** `replace` makes one pass: removing ".exe" can join the text around it into a new ".exe". */
  lemma StripExeIsSinglePass()
    ensures StripExe(".e.exexe") == ".exe" && StripExe(".exe") == ""
  {
    assert ".e.exexe"[..4] == ".e.e";
    assert ".e.exexe"[1..] == "e.exexe";
    assert "e.exexe"[..4] == "e.ex";
    assert "e.exexe"[1..] == ".exexe";
    assert ".exexe"[..4] == ".exe";
    assert ".exexe"[4..] == "xe";
    assert ".exe"[4..] == "";
  }

  // ---------------------------------------------------------------------------
  // `s.split('-')[1]`

  /** Position of the first `c` in `s`. */
  function IndexOf(s: string, c: char): (r: Option<nat>)
    ensures r.Some? ==> r.value < |s| && s[r.value] == c && c !in s[..r.value]
    ensures r.None? ==> c !in s
  {
    if |s| == 0 then None
    else if s[0] == c then Some(0)
    else match IndexOf(s[1..], c)
      case None => None
      case Some(i) => Some(i + 1)
  }

  /** The text of `s` before its first `c` (all of `s` when there is none). */
  function Before(s: string, c: char): (r: string)
    ensures c !in r && StartsWith(s, r)
    ensures |r| < |s| ==> s[|r|] == c
  {
    match IndexOf(s, c)
    case None => s
    case Some(i) => s[..i]
  }

  /**
   * `s.split(sep)[1]`: the field between the first and the second `sep`, or
   * None where `s` has no `sep` at all (Python raises IndexError).
   */
  function SecondField(s: string, sep: char): (r: Option<string>)
    ensures r.None? <==> sep !in s
  {
    match IndexOf(s, sep)
    case None => None
    case Some(i) => Some(Before(s[i + 1..], sep))
  }

  // ---------------------------------------------------------------------------
  // `int(s)` for a str

  predicate IsDigit(c: char)
  {
    '0' <= c <= '9'
  }

  /** The ASCII characters `str.isspace()` accepts (see README for the Unicode ones). */
  predicate IsSpace(c: char)
  {
    c == ' ' || 9 <= c as int <= 13 || 28 <= c as int <= 31
  }

  function TrimStart(s: string): string
  {
    if |s| > 0 && IsSpace(s[0]) then TrimStart(s[1..]) else s
  }

  function TrimEnd(s: string): string
  {
    if |s| > 0 && IsSpace(s[|s| - 1]) then TrimEnd(s[..|s| - 1]) else s
  }

  /** One or more digits, with single underscores allowed between two digits. */
  predicate DigitGroups(s: string)
  {
    && |s| > 0
    && IsDigit(s[0])
    && IsDigit(s[|s| - 1])
    && (forall i :: 0 <= i < |s| ==> IsDigit(s[i]) || s[i] == '_')
    && (forall i :: 0 <= i < |s| - 1 ==> s[i] != '_' || s[i + 1] != '_')
  }

  function DropUnderscores(s: string): (r: string)
    ensures forall c :: c in r ==> c in s && c != '_'
  {
    if |s| == 0 then []
    else if s[0] == '_' then DropUnderscores(s[1..])
    else [s[0]] + DropUnderscores(s[1..])
  }

  function DigitValue(c: char): nat
    requires IsDigit(c)
  {
    c as int - '0' as int
  }

  /** The value of a string of decimal digits, most significant first. */
  function DigitsValue(ds: string): nat
    requires forall c :: c in ds ==> IsDigit(c)
  {
    if |ds| == 0 then 0
    else DigitsValue(ds[..|ds| - 1]) * 10 + DigitValue(ds[|ds| - 1])
  }

  /**
   * Python's `int(s)` on a str: surrounding whitespace, an optional sign, then
   * digits (underscores allowed between them); None where Python raises ValueError.
   */
  function ParseInt(s: string): Option<int>
  {
    var t := TrimEnd(TrimStart(s));
    var negative := |t| > 0 && t[0] == '-';
    var body := if |t| > 0 && (t[0] == '+' || t[0] == '-') then t[1..] else t;
    if !DigitGroups(body) then None
    else
      var v: int := DigitsValue(DropUnderscores(body));
      Some(if negative then -v else v)
  }

  /** The empty string, the text a title "LDPlayer-" splits into, is no integer. */
  lemma ParseIntRejectsEmpty()
    ensures ParseInt("") == None
  {
  }

  // ---------------------------------------------------------------------------
  // Decimal rendering, the inverse of ParseInt on natural numbers

  function DigitChar(d: nat): (c: char)
    requires d < 10
    ensures IsDigit(c) && DigitValue(c) == d
  {
    ('0' as int + d) as char
  }

  /** The decimal digits of `n`, without sign, leading zeros or separators. */
  function ShowNat(n: nat): (r: string)
    ensures |r| > 0 && forall c :: c in r ==> IsDigit(c)
  {
    if n < 10 then [DigitChar(n)] else ShowNat(n / 10) + [DigitChar(n % 10)]
  }

  lemma {:induction false} DigitsValueOfShowNat(n: nat)
    ensures DigitsValue(ShowNat(n)) == n
  {
    var r := ShowNat(n);
    if n >= 10 {
      DigitsValueOfShowNat(n / 10);
      assert r[..|r| - 1] == ShowNat(n / 10);
    } else {
      assert r[..|r| - 1] == [];
    }
  }

  lemma {:induction false} DropUnderscoresOfDigits(s: string)
    requires forall c :: c in s ==> IsDigit(c)
    ensures DropUnderscores(s) == s
  {
    if |s| > 0 {
      assert s[0] in s;
      DropUnderscoresOfDigits(s[1..]);
      assert [s[0]] + s[1..] == s;
    }
  }

  /** `int(str(n)) == n` for every natural number. */
  lemma ParseShowNat(n: nat)
    ensures ParseInt(ShowNat(n)) == Some(n)
  {
    var r := ShowNat(n);
    assert r[0] in r && r[|r| - 1] in r;
    assert TrimStart(r) == r;
    assert TrimEnd(r) == r;
    assert DigitGroups(r) by {
      forall i | 0 <= i < |r| ensures IsDigit(r[i]) {
        assert r[i] in r;
      }
    }
    DropUnderscoresOfDigits(r);
    DigitsValueOfShowNat(n);
  }
}
