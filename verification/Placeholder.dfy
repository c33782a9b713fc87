/** The placeholder for output directories in build-script output (bin/cargo/build_script.go). */
module Placeholder {

  /** Go's `strings.ReplaceAll`: left to right, without overlaps. */
  function ReplaceAll(s: string, target: string, with: string): string
    requires target != ""
  {
    if s == "" then ""
    else if target <= s then with + ReplaceAll(s[|target|..], target, with)
    else [s[0]] + ReplaceAll(s[1..], target, with)
  }

  const PLACEHOLDER := "${TRUSTME_OUT_DIR}"

  /** `makeBuildOutputPortable`, on the contents of the file. */
  function Portable(text: string, outDir: string): string {
    if outDir == "" then text else ReplaceAll(text, outDir, PLACEHOLDER)
  }

  /** `resolveBuildOutputPath`. */
  function Resolved(text: string, outDir: string): string {
    if outDir == "" then text else ReplaceAll(text, PLACEHOLDER, outDir)
  }

  predicate OccursAt(s: string, x: string, i: nat) { i <= |s| && x <= s[i..] }

  ghost predicate Contains(s: string, x: string) { exists i: nat :: OccursAt(s, x, i) }

  /** A placeholder that the text itself begins with and that no replaced directory reaches into. */
  predicate SurvivesHere(text: string, outDir: string) {
    PLACEHOLDER <= text && forall k: nat :: k < |PLACEHOLDER| ==> !OccursAt(text, outDir, k)
  }

  /** How many placeholders of the text itself are left after replacing the directory. */
  function Survivors(text: string, outDir: string): nat
    requires outDir != ""
  {
    if text == "" then 0
    else if outDir <= text then Survivors(text[|outDir|..], outDir)
    else if SurvivesHere(text, outDir) then 1 + Survivors(text[|PLACEHOLDER|..], outDir)
    else Survivors(text[1..], outDir)
  }

  /** What comes back: every replaced directory and every surviving placeholder becomes `with`. */
  ghost function Restored(text: string, outDir: string, with: string): string
    requires outDir != ""
  {
    if text == "" then ""
    else if outDir <= text then with + Restored(text[|outDir|..], outDir, with)
    else if SurvivesHere(text, outDir) then with + Restored(text[|PLACEHOLDER|..], outDir, with)
    else [text[0]] + Restored(text[1..], outDir, with)
  }

  // ---- The placeholder cannot appear across a splice ----

  lemma OneDollar(k: nat)
    requires 0 < k < |PLACEHOLDER|
    ensures PLACEHOLDER[0] == '$' && PLACEHOLDER[k] != '$'
  {
  }

  /** Text without matches is copied. */
  lemma {:induction false} CopiesThrough(s: string, target: string, with: string, n: nat)
    requires target != "" && n <= |s| && forall k: nat :: k < n ==> !OccursAt(s, target, k)
    ensures ReplaceAll(s, target, with) == s[..n] + ReplaceAll(s[n..], target, with)
  {
    if n > 0 {
      assert !OccursAt(s, target, 0) && s[0..] == s;
      forall k: nat | k < n - 1 ensures !OccursAt(s[1..], target, k) {
        assert !OccursAt(s, target, k + 1) && s[1..][k..] == s[k + 1..];
      }
      CopiesThrough(s[1..], target, with, n - 1);
      assert s[..n] == [s[0]] + s[1..][..n - 1] && s[1..][n - 1..] == s[n..];
    }
  }

  ghost predicate FirstMatch(s: string, target: string, k: nat) {
    OccursAt(s, target, k) && forall j: nat :: j < k ==> !OccursAt(s, target, j)
  }

  lemma {:induction false} FirstMatchExists(s: string, target: string, k: nat)
    requires OccursAt(s, target, k)
    ensures exists j: nat :: j <= k && FirstMatch(s, target, j)
  {
    if j: nat :| j < k && OccursAt(s, target, j) {
      FirstMatchExists(s, target, j);
    } else {
      assert FirstMatch(s, target, k);
    }
  }

  /** Where neither the directory nor a surviving placeholder begins, no placeholder begins afterwards. */
  lemma NoNewPlaceholder(text: string, outDir: string)
    requires outDir != "" && !(outDir <= text) && !SurvivesHere(text, outDir)
    ensures !(PLACEHOLDER <= ReplaceAll(text, outDir, PLACEHOLDER))
  {
    var portable := ReplaceAll(text, outDir, PLACEHOLDER);
    if i: nat :| i < |PLACEHOLDER| && OccursAt(text, outDir, i) {
      FirstMatchExists(text, outDir, i);
      var k: nat :| k <= i && FirstMatch(text, outDir, k);
      assert k > 0 by { assert text[0..] == text; }
      CopiesThrough(text, outDir, PLACEHOLDER, k);
      OneDollar(k);
      assert portable[k] == '$';
    } else {
      var n := if |text| < |PLACEHOLDER| then |text| else |PLACEHOLDER|;
      CopiesThrough(text, outDir, PLACEHOLDER, n);
      if n == |text| {
        assert ReplaceAll(text[n..], outDir, PLACEHOLDER) == "";
        assert portable == text;
      } else {
        assert portable[..n] == text[..n];
      }
    }
  }

  lemma ReplacesPrefix(s: string, target: string, with: string)
    requires target != ""
    ensures ReplaceAll(target + s, target, with) == with + ReplaceAll(s, target, with)
  {
    assert (target + s)[|target|..] == s;
  }

  lemma {:induction false} ResolvedIsRestored(text: string, outDir: string, with: string)
    requires outDir != ""
    ensures ReplaceAll(ReplaceAll(text, outDir, PLACEHOLDER), PLACEHOLDER, with) == Restored(text, outDir, with)
    decreases |text|
  {
    if text == "" {
    } else if outDir <= text {
      var rest := text[|outDir|..];
      ResolvedIsRestored(rest, outDir, with);
      ReplacesPrefix(ReplaceAll(rest, outDir, PLACEHOLDER), PLACEHOLDER, with);
    } else if SurvivesHere(text, outDir) {
      var rest := text[|PLACEHOLDER|..];
      CopiesThrough(text, outDir, PLACEHOLDER, |PLACEHOLDER|);
      ResolvedIsRestored(rest, outDir, with);
      ReplacesPrefix(ReplaceAll(rest, outDir, PLACEHOLDER), PLACEHOLDER, with);
    } else {
      NoNewPlaceholder(text, outDir);
      ResolvedIsRestored(text[1..], outDir, with);
      var portable := ReplaceAll(text, outDir, PLACEHOLDER);
      assert portable == [text[0]] + portable[1..] && portable[1..] == ReplaceAll(text[1..], outDir, PLACEHOLDER);
    }
  }

  // ---- When the text comes back ----

  lemma {:induction false} WithoutSurvivors(text: string, outDir: string, with: string)
    requires outDir != "" && Survivors(text, outDir) == 0
    ensures Restored(text, outDir, with) == ReplaceAll(text, outDir, with)
    ensures Restored(text, outDir, outDir) == text
    decreases |text|
  {
    hide SurvivesHere;
    if text == "" {
    } else if outDir <= text {
      WithoutSurvivors(text[|outDir|..], outDir, with);
      assert text == outDir + text[|outDir|..];
    } else {
      WithoutSurvivors(text[1..], outDir, with);
      assert text == [text[0]] + text[1..];
    }
  }

  ghost function Times(n: nat, gap: int): int { n * gap }

  lemma TimesStep(n: nat, gap: int)
    ensures Times(0, gap) == 0 && Times(n + 1, gap) == Times(n, gap) + gap
  {
  }

  lemma {:induction false} RestoredLength(text: string, outDir: string)
    requires outDir != ""
    ensures |Restored(text, outDir, outDir)| == |text| + Times(Survivors(text, outDir), |outDir| - |PLACEHOLDER|)
    decreases |text|
  {
    hide Times;
    var gap := |outDir| - |PLACEHOLDER|;
    TimesStep(0, gap);
    if text == "" {
    } else if outDir <= text {
      RestoredLength(text[|outDir|..], outDir);
    } else if SurvivesHere(text, outDir) {
      RestoredLength(text[|PLACEHOLDER|..], outDir);
      TimesStep(Survivors(text[|PLACEHOLDER|..], outDir), gap);
    } else {
      RestoredLength(text[1..], outDir);
    }
  }

  lemma {:induction false} SurvivorIsLost(text: string, outDir: string)
    requires outDir != "" && Survivors(text, outDir) > 0
    ensures Restored(text, outDir, outDir) != text
    decreases |text|
  {
    if |outDir| != |PLACEHOLDER| {
      RestoredLength(text, outDir);
      NotZero(Survivors(text, outDir), |outDir| - |PLACEHOLDER|);
    } else if outDir <= text {
      SurvivorIsLost(text[|outDir|..], outDir);
      assert Restored(text, outDir, outDir)[|outDir|..] == Restored(text[|outDir|..], outDir, outDir);
    } else if SurvivesHere(text, outDir) {
      assert outDir <= Restored(text, outDir, outDir);
    } else {
      SurvivorIsLost(text[1..], outDir);
      assert Restored(text, outDir, outDir)[1..] == Restored(text[1..], outDir, outDir);
    }
  }

  lemma NotZero(a: int, b: int)
    requires a != 0 && b != 0
    ensures a * b != 0
  {
  }

  lemma {:induction false} PlainHasNoSurvivors(text: string, outDir: string)
    requires outDir != "" && !Contains(text, PLACEHOLDER)
    ensures Survivors(text, outDir) == 0
    decreases |text|
  {
    assert !OccursAt(text, PLACEHOLDER, 0) && text[0..] == text;
    if text != "" {
      var n := if outDir <= text then |outDir| else 1;
      forall i: nat ensures !OccursAt(text[n..], PLACEHOLDER, i) {
        assert !OccursAt(text, PLACEHOLDER, n + i);
        if n + i <= |text| {
          assert text[n..][i..] == text[n + i..];
        }
      }
      PlainHasNoSurvivors(text[n..], outDir);
    }
  }

  /** The directory comes back exactly unless a placeholder of the text itself survives the replacement. */
  lemma RoundTripExactly(text: string, outDir: string)
    ensures Resolved(Portable(text, outDir), outDir) == text <==> outDir == "" || Survivors(text, outDir) == 0
  {
    if outDir != "" {
      ResolvedIsRestored(text, outDir, outDir);
      if Survivors(text, outDir) == 0 {
        WithoutSurvivors(text, outDir, outDir);
      } else {
        SurvivorIsLost(text, outDir);
      }
    }
  }

  lemma PlaceholderIsLost()
    ensures Resolved(Portable(PLACEHOLDER, "/out"), "/out") != PLACEHOLDER
  {
    forall k: nat | k < |PLACEHOLDER| ensures !OccursAt(PLACEHOLDER, "/out", k) {
      assert PLACEHOLDER[k] != '/';
    }
    assert SurvivesHere(PLACEHOLDER, "/out");
    assert !("/out" <= PLACEHOLDER) by { assert "/out"[0] != PLACEHOLDER[0]; }
    RoundTripExactly(PLACEHOLDER, "/out");
  }

  /** A text without the placeholder always comes back, and read in another directory it names that one
      wherever it named the first. */
  lemma PlainRoundTrip(text: string, outDir: string, other: string)
    requires !Contains(text, PLACEHOLDER)
    ensures Resolved(Portable(text, outDir), outDir) == text
    ensures outDir != "" && other != "" ==> Resolved(Portable(text, outDir), other) == ReplaceAll(text, outDir, other)
  {
    if outDir != "" {
      PlainHasNoSurvivors(text, outDir);
      RoundTripExactly(text, outDir);
      ResolvedIsRestored(text, outDir, other);
      WithoutSurvivors(text, outDir, other);
    }
  }
}
