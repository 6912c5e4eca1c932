/** Output names derived from arbitrary caller input, on ASCII text, and decimal suffixes. */
module Names {

  predicate IsDigit(c: char) { '0' <= c <= '9' }

  predicate IsUpper(c: char) { 'A' <= c <= 'Z' }

  predicate IsLower(c: char) { 'a' <= c <= 'z' }

  predicate IsAlnum(c: char) { IsDigit(c) || IsUpper(c) || IsLower(c) }

  /** ASCII white space: tab to carriage return, the four separators and the blank. */
  predicate IsSpace(c: char) { '\t' <= c <= '\r' || '\U{1c}' <= c <= '\U{20}' }

  function LowerChar(c: char): (r: char)
    ensures IsAlnum(c) ==> IsDigit(r) || IsLower(r)
  {
    if IsUpper(c) then (c as int + 32) as char else c
  }

  function Lower(s: string): (r: string)
    ensures |r| == |s| && forall i :: 0 <= i < |s| ==> r[i] == LowerChar(s[i])
  {
    seq(|s|, i requires 0 <= i < |s| => LowerChar(s[i]))
  }

  /** The decimal numeral of n, without leading zeros. */
  function Decimal(n: nat): (r: string)
    ensures r != [] && forall c <- r :: IsDigit(c)
  {
    var digit := [('0' as int + n % 10) as char];
    if n < 10 then digit else Decimal(n / 10) + digit
  }

  function Value(s: string): int {
    if s == [] then 0 else 10 * Value(s[..|s| - 1]) + (s[|s| - 1] as int - '0' as int)
  }

  lemma {:induction false} ValueOfDecimal(n: nat)
    ensures Value(Decimal(n)) == n
  {
    var last := ('0' as int + n % 10) as char;
    if n < 10 {
      assert [last][..0] == [];
    } else {
      ValueOfDecimal(n / 10);
      assert (Decimal(n / 10) + [last])[..|Decimal(n / 10)|] == Decimal(n / 10);
    }
  }

  /** Different numbers have different numerals. */
  lemma DecimalInjective(m: nat, n: nat)
    requires Decimal(m) == Decimal(n)
    ensures m == n
  {
    ValueOfDecimal(m);
    ValueOfDecimal(n);
  }

  // ---------- Names that are safe as a file or folder name ----------

  predicate IsSafeChar(c: char) {
    IsAlnum(c) || c == '.' || c == '_' || c == '-'
  }

  predicate HasDoubleDot(s: string) {
    exists i :: 0 <= i < |s| - 1 && s[i] == '.' && s[i + 1] == '.'
  }

  /** Letters, digits, dots, underscores and dashes, a letter or digit first, no two dots in a row. */
  predicate IsSafeName(s: string) {
    s != "" && IsAlnum(s[0]) && (forall i :: 0 <= i < |s| ==> IsSafeChar(s[i])) && !HasDoubleDot(s)
  }

  function Strip(s: string): string {
    if s != "" && IsSpace(s[0]) then Strip(s[1..])
    else if s != "" && IsSpace(s[|s| - 1]) then Strip(s[..|s| - 1])
    else s
  }

  function StripDashes(s: string): string {
    if s != "" && s[0] == '-' then StripDashes(s[1..])
    else if s != "" && s[|s| - 1] == '-' then StripDashes(s[..|s| - 1])
    else s
  }

  predicate IsSlugChar(c: char) {
    IsDigit(c) || IsLower(c)
  }

  /** Every maximal run of other characters becomes one dash. */
  function Dashed(s: string, inRun: bool): (r: string)
    ensures forall c <- r :: IsSlugChar(c) || c == '-'
  {
    if s == "" then ""
    else if IsSlugChar(s[0]) then [s[0]] + Dashed(s[1..], false)
    else if inRun then Dashed(s[1..], true)
    else "-" + Dashed(s[1..], true)
  }

  function Slugify(value: string, fallback: string): string {
    var slug := StripDashes(Dashed(Lower(value), false));
    if slug == "" then fallback else slug
  }

  function SafeExportName(value: string, fallback: string): string {
    var v := Strip(value);
    if IsSafeName(v) then v else Slugify(v, fallback)
  }

  lemma {:induction false} StripDashesSafe(s: string)
    requires forall c <- s :: IsSlugChar(c) || c == '-'
    ensures StripDashes(s) == "" || IsSafeName(StripDashes(s))
    decreases |s|
  {
    if s != "" && s[0] == '-' {
      StripDashesSafe(s[1..]);
    } else if s != "" && s[|s| - 1] == '-' {
      StripDashesSafe(s[..|s| - 1]);
    } else if s != "" {
      forall i | 0 <= i < |s| ensures IsSafeChar(s[i]) && s[i] != '.' {
        assert s[i] in s;
      }
      assert s[0] in s;
    }
  }

  /** The export name is always safe, so it is never empty, a dot or two dots, and holds no slash. */
  lemma ExportNameIsSafe(value: string, fallback: string)
    requires IsSafeName(fallback)
    ensures IsSafeName(SafeExportName(value, fallback))
    ensures SafeExportName(value, fallback) !in {"", ".", ".."} && '/' !in SafeExportName(value, fallback)
  {
    StripDashesSafe(Dashed(Lower(Strip(value)), false));
    var r := SafeExportName(value, fallback);
    forall i | 0 <= i < |r| ensures r[i] != '/' {
      assert IsSafeChar(r[i]);
    }
  }

  /** A safe name is exported under itself, so exporting twice changes nothing. */
  lemma ExportNameIsIdempotent(value: string, fallback: string, other: string)
    requires IsSafeName(fallback)
    ensures SafeExportName(SafeExportName(value, fallback), other) == SafeExportName(value, fallback)
  {
    ExportNameIsSafe(value, fallback);
    var r := SafeExportName(value, fallback);
    assert IsSafeChar(r[0]) && IsSafeChar(r[|r| - 1]);
    assert Strip(r) == r;
  }

  // ---------- When the fallback is used ----------

  predicate HasAlnum(s: string) {
    exists i :: 0 <= i < |s| && IsAlnum(s[i])
  }

  lemma {:induction false} StripKeepsAlnum(s: string)
    ensures HasAlnum(Strip(s)) <==> HasAlnum(s)
    decreases |s|
  {
    if s != "" && IsSpace(s[0]) {
      StripKeepsAlnum(s[1..]);
      if i :| 0 <= i < |s| && IsAlnum(s[i]) {
        assert s[1..][i - 1] == s[i];
      }
    } else if s != "" && IsSpace(s[|s| - 1]) {
      StripKeepsAlnum(s[..|s| - 1]);
      if i :| 0 <= i < |s| && IsAlnum(s[i]) {
        assert s[..|s| - 1][i] == s[i];
      }
    }
  }

  lemma {:induction false} StripDashesKeepsAlnum(s: string)
    requires forall c <- s :: IsSlugChar(c) || c == '-'
    ensures StripDashes(s) != "" <==> HasAlnum(s)
    decreases |s|
  {
    if s != "" && s[0] == '-' {
      StripDashesKeepsAlnum(s[1..]);
      if i :| 0 <= i < |s| && IsAlnum(s[i]) {
        assert s[1..][i - 1] == s[i];
      }
    } else if s != "" && s[|s| - 1] == '-' {
      StripDashesKeepsAlnum(s[..|s| - 1]);
      if i :| 0 <= i < |s| && IsAlnum(s[i]) {
        assert s[..|s| - 1][i] == s[i];
      }
    } else if s != "" {
      assert s[0] in s && IsAlnum(s[0]);
    }
  }

  lemma {:induction false} DashedKeepsAlnum(s: string, inRun: bool)
    requires forall i :: 0 <= i < |s| ==> !IsUpper(s[i])
    ensures HasAlnum(Dashed(s, inRun)) <==> HasAlnum(s)
    decreases |s|
  {
    if s != "" {
      DashedKeepsAlnum(s[1..], !IsSlugChar(s[0]));
      HasAlnumCons(s[0], s[1..]);
      assert s == [s[0]] + s[1..];
      HasAlnumCons(s[0], Dashed(s[1..], false));
      HasAlnumCons('-', Dashed(s[1..], true));
    }
  }

  lemma HasAlnumCons(c: char, s: string)
    ensures HasAlnum([c] + s) <==> IsAlnum(c) || HasAlnum(s)
  {
    if i :| 0 <= i < |s| && IsAlnum(s[i]) {
      assert ([c] + s)[i + 1] == s[i];
    }
    assert ([c] + s)[0] == c;
    if i :| 0 < i < |[c] + s| && IsAlnum(([c] + s)[i]) {
      assert s[i - 1] == ([c] + s)[i];
    }
  }

  /** The fallback names exactly the values without a letter or digit; any other value keeps a name of its own. */
  lemma FallbackIffNoAlnum(value: string, fallback: string, other: string)
    ensures !HasAlnum(value) ==> SafeExportName(value, fallback) == fallback
    ensures HasAlnum(value) ==> SafeExportName(value, fallback) == SafeExportName(value, other)
  {
    var v := Strip(value);
    StripKeepsAlnum(value);
    forall i | 0 <= i < |v| ensures IsAlnum(v[i]) <==> IsAlnum(Lower(v)[i]) {
      assert Lower(v)[i] == LowerChar(v[i]);
    }
    assert HasAlnum(v) <==> HasAlnum(Lower(v)) by {
      if i :| 0 <= i < |v| && IsAlnum(v[i]) {
        assert IsAlnum(Lower(v)[i]);
      }
    }
    DashedKeepsAlnum(Lower(v), false);
    StripDashesKeepsAlnum(Dashed(Lower(v), false));
    if IsSafeName(v) {
      assert IsAlnum(v[0]);
    }
  }
}
