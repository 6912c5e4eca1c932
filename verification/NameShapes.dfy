/** What an output name is, in terms of the characters of the text that it is made from. */
module NameShapes {
  import opened Names
  import opened Sequences

  /** A blank, one of the five control characters from tab on, or one of the four separators. */
  ghost predicate White(c: char) {
    c as int == 32 || 9 <= c as int <= 13 || 28 <= c as int <= 31
  }

  ghost predicate LetterOrDigit(c: char) {
    'a' <= c <= 'z' || 'A' <= c <= 'Z' || '0' <= c <= '9'
  }

  function SmallLetter(c: char): char {
    if 'A' <= c <= 'Z' then (c as int + ('a' as int - 'A' as int)) as char else c
  }

  /** `v` is `s` without the white space around it. */
  ghost predicate Trimmed(s: string, v: string) {
    exists i: nat, j: nat ::
      && i <= j <= |s| && v == s[i..j]
      && (forall k :: 0 <= k < i || j <= k < |s| ==> White(s[k]))
      && (i < j ==> !White(s[i]) && !White(s[j - 1]))
  }

  /** A letter or digit first, then letters, digits, dots, underscores and dashes, and no two dots in a row. */
  ghost predicate Usable(v: string) {
    && v != "" && LetterOrDigit(v[0])
    && (forall c <- v :: LetterOrDigit(c) || c in {'.', '_', '-'})
    && forall k :: 0 <= k < |v| - 1 ==> !(v[k] == '.' && v[k + 1] == '.')
  }

  /** The letters and digits at these places as small letters, with a dash where others lie between. */
  function Words(v: string, at: seq<nat>): string
    requires forall k :: 0 <= k < |at| ==> at[k] < |v|
  {
    if at == [] then ""
    else if |at| == 1 then [SmallLetter(v[at[0]])]
    else [SmallLetter(v[at[0]])] + (if at[1] == at[0] + 1 then "" else "-") + Words(v, at[1..])
  }

  /** The places of the letters and digits, in order. */
  ghost predicate WordPlaces(at: seq<nat>, v: string) {
    && (forall j, k :: 0 <= j < k < |at| ==> at[j] < at[k])
    && (forall k: nat :: k in at <==> k < |v| && LetterOrDigit(v[k]))
  }

  /** The name of a trimmed text: itself where it is usable, else its words, else the fallback. */
  ghost predicate Named(v: string, fallback: string, name: string) {
    if Usable(v) then name == v
    else if forall c <- v :: !LetterOrDigit(c) then name == fallback
    else exists at :: WordPlaces(at, v) && (forall k :: 0 <= k < |at| ==> at[k] < |v|) && name == Words(v, at)
  }

  // ---------- Trimming ----------

  lemma {:induction false} StripTrims(s: string) returns (i: nat, j: nat)
    ensures i <= j <= |s| && Strip(s) == s[i..j]
    ensures forall k :: 0 <= k < i || j <= k < |s| ==> White(s[k])
    ensures i < j ==> !White(s[i]) && !White(s[j - 1])
    decreases |s|
  {
    if s != "" && IsSpace(s[0]) {
      i, j := StripTrims(s[1..]);
      assert s[1..][i..j] == s[i + 1..j + 1];
      forall k | 0 < k < i + 1 || j + 1 <= k < |s| ensures White(s[k]) {
        assert s[k] == s[1..][k - 1];
      }
      i, j := i + 1, j + 1;
    } else if s != "" && IsSpace(s[|s| - 1]) {
      i, j := StripTrims(s[..|s| - 1]);
      assert s[..|s| - 1][i..j] == s[i..j];
      forall k | 0 <= k < i || j <= k < |s| - 1 ensures White(s[k]) {
        assert s[k] == s[..|s| - 1][k];
      }
    } else {
      i, j := 0, |s|;
      assert s[0..|s|] == s;
    }
  }

  // ---------- Words ----------

  ghost predicate Within(at: seq<nat>, v: string) {
    forall k :: 0 <= k < |at| ==> at[k] < |v|
  }

  lemma {:induction false} WordsShift(c: char, v: string, at: seq<nat>)
    requires Within(at, v)
    ensures Within(Shifted(at), [c] + v) && Words([c] + v, Shifted(at)) == Words(v, at)
    decreases |at|
  {
    if |at| > 1 {
      WordsShift(c, v, at[1..]);
      assert Shifted(at)[1..] == Shifted(at[1..]);
    }
  }

  lemma WordsHead(c: char, v: string, at: seq<nat>)
    requires Within(at, v)
    ensures Within([0] + Shifted(at), [c] + v)
    ensures Words([c] + v, [0] + Shifted(at))
            == [SmallLetter(c)] + (if at != [] && at[0] != 0 then "-" else "") + Words(v, at)
  {
    var all := [0] + Shifted(at);
    WordsShift(c, v, at);
    assert all[1..] == Shifted(at);
  }

  lemma PlacesShift(c: char, v: string, at: seq<nat>)
    requires WordPlaces(at, v)
    ensures WordPlaces(if LetterOrDigit(c) then [0] + Shifted(at) else Shifted(at), [c] + v)
  {
    var s := [c] + v;
    forall k: nat ensures k in Shifted(at) <==> k > 0 && k < |s| && LetterOrDigit(s[k]) {
      if k > 0 && k < |s| && LetterOrDigit(s[k]) {
        assert v[k - 1] == s[k] && k - 1 in at;
        var m :| 0 <= m < |at| && at[m] == k - 1;
        assert Shifted(at)[m] == k;
      }
      if k in Shifted(at) {
        var m :| 0 <= m < |at| && Shifted(at)[m] == k;
        assert at[m] in at && s[k] == v[k - 1];
      }
    }
    if LetterOrDigit(c) {
      HeadPlaces(c, v, Shifted(at));
    }
  }

  lemma HeadPlaces(c: char, v: string, at: seq<nat>)
    requires LetterOrDigit(c) && forall j, k :: 0 <= j < k < |at| ==> at[j] < at[k]
    requires forall k: nat :: k in at <==> k > 0 && k < |[c] + v| && LetterOrDigit(([c] + v)[k])
    ensures WordPlaces([0] + at, [c] + v)
  {
    var all := [0] + at;
    forall j, k | 0 <= j < k < |all| ensures all[j] < all[k] {
      assert all[k] == at[k - 1] && at[k - 1] in at && (j > 0 ==> all[j] == at[j - 1]);
    }
  }

  lemma DashedHead(v: string, inRun: bool)
    requires v != ""
    ensures LetterOrDigit(v[0]) ==> Dashed(Lower(v), inRun) == [SmallLetter(v[0])] + Dashed(Lower(v[1..]), false)
    ensures !LetterOrDigit(v[0])
            ==> Dashed(Lower(v), inRun) == (if inRun then "" else "-") + Dashed(Lower(v[1..]), true)
  {
    assert Lower(v)[0] == LowerChar(v[0]) && Lower(v)[1..] == Lower(v[1..]);
  }

  /** What dashing gives: the words, with a dash before and after where other characters lie there. */
  ghost predicate DashedAs(v: string, inRun: bool, at: seq<nat>, lead: string, trail: string) {
    && WordPlaces(at, v) && Within(at, v)
    && Dashed(Lower(v), inRun) == lead + Words(v, at) + trail
    && lead in {"", "-"} && trail in {"", "-"}
    && (at == [] ==> trail == "" && (lead == "-" <==> v != "" && !inRun))
    && (at != [] ==> (lead == "-" <==> at[0] != 0 && !inRun))
  }

  lemma LetterStep(v: string, inRun: bool, at: seq<nat>, lead: string, trail: string)
    requires v != "" && LetterOrDigit(v[0]) && DashedAs(v[1..], false, at, lead, trail)
    ensures DashedAs(v, inRun, [0] + Shifted(at), "", if at == [] then lead else trail)
  {
    var c, rest := v[0], v[1..];
    assert v == [c] + rest;
    DashedHead(v, inRun);
    PlacesShift(c, rest, at);
    WordsHead(c, rest, at);
    HeadJoins(SmallLetter(c), lead, Words(rest, at), trail, at == []);
  }

  lemma RunStep(v: string, inRun: bool, at: seq<nat>, lead: string, trail: string)
    requires v != "" && !LetterOrDigit(v[0]) && DashedAs(v[1..], true, at, lead, trail)
    ensures DashedAs(v, inRun, Shifted(at), if inRun then "" else "-", trail)
  {
    var c, rest := v[0], v[1..];
    assert v == [c] + rest;
    DashedHead(v, inRun);
    PlacesShift(c, rest, at);
    WordsShift(c, rest, at);
    RunJoins(lead, Words(rest, at), trail);
  }

  lemma {:induction false} DashedIs(v: string, inRun: bool) returns (at: seq<nat>, lead: string, trail: string)
    ensures DashedAs(v, inRun, at, lead, trail)
    decreases |v|
  {
    if v == "" {
      at, lead, trail := [], "", "";
    } else if LetterOrDigit(v[0]) {
      at, lead, trail := DashedIs(v[1..], false);
      LetterStep(v, inRun, at, lead, trail);
      at, lead, trail := [0] + Shifted(at), "", if at == [] then lead else trail;
    } else {
      at, lead, trail := DashedIs(v[1..], true);
      RunStep(v, inRun, at, lead, trail);
      at, lead := Shifted(at), if inRun then "" else "-";
    }
  }

  lemma HeadJoins(c: char, lead: string, words: string, trail: string, none: bool)
    requires none ==> words == "" && trail == ""
    ensures [c] + (lead + words + trail)
            == if none then "" + ([c] + "" + words) + lead else "" + ([c] + lead + words) + trail
  {
  }

  lemma RunJoins(lead: string, words: string, trail: string)
    requires lead == ""
    ensures lead + words + trail == "" + words + trail && "-" + (lead + words + trail) == "-" + words + trail
  {
  }

  // ---------- Stripping dashes ----------

  lemma StripsLead(s: string)
    ensures StripDashes("-" + s) == StripDashes(s)
  {
    assert ("-" + s)[1..] == s;
  }

  lemma StripsTrail(words: string)
    requires words != "" && words[0] != '-' && words[|words| - 1] != '-'
    ensures StripDashes(words) == words && StripDashes(words + "-") == words
  {
    var s := words + "-";
    assert s[0] == words[0] && s[|s| - 1] == '-' && s[..|s| - 1] == words;
  }

  lemma StripsBoth(lead: string, words: string, trail: string)
    requires lead in {"", "-"} && trail in {"", "-"}
    requires words == "" ==> trail == ""
    requires words != "" ==> words[0] != '-' && words[|words| - 1] != '-'
    ensures StripDashes(lead + words + trail) == words
  {
    StripsLead(words + trail);
    assert lead + words + trail == lead + (words + trail) && "" + (words + trail) == words + trail;
    assert words + "" == words;
    if words != "" {
      StripsTrail(words);
    }
  }

  lemma {:induction false} WordsEnds(v: string, at: seq<nat>)
    requires Within(at, v) && forall k <- at :: LetterOrDigit(v[k])
    ensures at == [] <==> Words(v, at) == ""
    ensures at != [] ==> Words(v, at)[0] != '-' && Words(v, at)[|Words(v, at)| - 1] != '-'
    decreases |at|
  {
    if at != [] {
      assert at[0] in at;
      if |at| > 1 {
        WordsEnds(v, at[1..]);
      }
    }
  }

  lemma SlugIsWords(v: string, fallback: string) returns (at: seq<nat>)
    ensures WordPlaces(at, v) && Within(at, v)
    ensures Slugify(v, fallback) == if at == [] then fallback else Words(v, at)
  {
    var lead, trail;
    at, lead, trail := DashedIs(v, false);
    forall k | k in at ensures LetterOrDigit(v[k]) {
    }
    WordsEnds(v, at);
    StripsBoth(lead, Words(v, at), trail);
  }

  lemma SafeIsUsable(v: string)
    ensures IsSafeName(v) <==> Usable(v)
  {
    if Usable(v) {
      forall i | 0 <= i < |v| ensures IsSafeChar(v[i]) {
        assert v[i] in v;
      }
      assert !HasDoubleDot(v);
    }
    if IsSafeName(v) {
      forall k | 0 <= k < |v| - 1 ensures !(v[k] == '.' && v[k + 1] == '.') {
      }
    }
  }

  /** An export name is the trimmed text where that is usable as a name, else its words in small letters
      joined by dashes, else the fallback. */
  lemma ExportNameIs(value: string, fallback: string)
    ensures exists v :: Trimmed(value, v) && Named(v, fallback, SafeExportName(value, fallback))
  {
    var v := Strip(value);
    var i, j := StripTrims(value);
    assert Trimmed(value, v);
    SafeIsUsable(v);
    if !Usable(v) {
      var at := SlugIsWords(v, fallback);
      if at == [] {
        forall k | 0 <= k < |v| ensures !LetterOrDigit(v[k]) {
          assert k !in at;
        }
      } else {
        assert at[0] in at && v[at[0]] in v;
      }
    }
    assert Named(v, fallback, SafeExportName(value, fallback));
  }
}
