/** The driver access-code allow-list and its validator
    (src/config/driverCodes.js). */
module DriverCodes {
  import opened JsString

  /** The fixed allow-list; the last entry is the code the auto-session
      scheduler presents. */
  const VALID_DRIVER_CODES: seq<string> := ["BUS77A", "GOKU", "GOKULNATH8887", "AUTO_SESSION_7AM"]

  /** The normal form the validator compares: trimmed, then upper-cased. */
  function Normalize(code: string): (n: string)
    ensures Trimmed(n)
  {
    UpperKeepsTrimmed(Trim(code));
    ToUpperCase(Trim(code))
  }

  /** `validateDriverCode(code)`: the normalised code is on the allow-list.
      No entry of the list is empty, so a blank code is never accepted. */
  predicate ValidateDriverCode(code: string)
    ensures ValidateDriverCode(code) ==> Trim(code) != []
  {
    Normalize(code) in VALID_DRIVER_CODES
  }

  /** `code` is `v` written in any letter case and padded with spaces on
      either side: an independent reading of what the validator accepts. */
  ghost predicate MatchesIgnoringCaseAndPadding(code: string, v: string) {
    exists i, j :: 0 <= i <= j <= |code| && SpacesIn(code, 0, i) && SpacesIn(code, j, |code|)
                   && ToUpperCase(code[i..j]) == v
  }

  lemma AllCodesTrimmedAndNonEmpty()
    ensures forall v :: v in VALID_DRIVER_CODES ==> v != [] && Trimmed(v)
  {
  }

  /** A character is a space exactly when its upper-case form is. */
  lemma UpperCharSpace(c: char)
    ensures IsSpace(UpperChar(c)) <==> IsSpace(c)
  {
  }

  /** A string whose upper-case form is trimmed is itself trimmed. */
  lemma TrimmedFromUpper(x: string)
    requires Trimmed(ToUpperCase(x))
    ensures Trimmed(x)
  {
    if x != [] {
      UpperCharSpace(x[0]);
      UpperCharSpace(x[|x| - 1]);
    }
  }

  /** The validator accepts exactly the allow-listed codes in any letter case
      with any amount of surrounding space. */
  lemma ValidIffMatchesIgnoringCaseAndPadding(code: string)
    ensures ValidateDriverCode(code) <==>
            exists v :: v in VALID_DRIVER_CODES && MatchesIgnoringCaseAndPadding(code, v)
  {
    if ValidateDriverCode(code) {
      ValidMatches(code);
    }
    if v :| v in VALID_DRIVER_CODES && MatchesIgnoringCaseAndPadding(code, v) {
      MatchesValid(code, v);
    }
  }

  lemma ValidMatches(code: string)
    requires ValidateDriverCode(code)
    ensures MatchesIgnoringCaseAndPadding(code, Normalize(code))
  {
    var r := Trim(code);
    var k := TrimSplit(code);
    assert ToUpperCase(code[k..k + |r|]) == Normalize(code);
  }

  lemma MatchesValid(code: string, v: string)
    requires v in VALID_DRIVER_CODES && MatchesIgnoringCaseAndPadding(code, v)
    ensures ValidateDriverCode(code)
  {
    AllCodesTrimmedAndNonEmpty();
    var i, j :| 0 <= i <= j <= |code| && SpacesIn(code, 0, i) && SpacesIn(code, j, |code|)
                && ToUpperCase(code[i..j]) == v;
    var x := code[i..j];
    TrimmedFromUpper(x);
    SplitThree(code, i, j);
    TrimOfPadded(code[..i], x, code[j..]);
  }

  /** Every listed code is accepted exactly as written. */
  lemma ListedCodeAccepted(v: string)
    requires v in VALID_DRIVER_CODES
    ensures ValidateDriverCode(v)
  {
    AllCodesTrimmedAndNonEmpty();
    assert v == [] + v + [];
    TrimOfPadded([], v, []);
    ListedCodesUpperCase(v);
  }

  lemma ListedCodesUpperCase(v: string)
    requires v in VALID_DRIVER_CODES
    ensures ToUpperCase(v) == v
  {
    assert forall i :: 0 <= i < |v| ==> !IsLower(v[i]);
    UpperOfNoLower(v);
  }

  /** Normalising first does not change the verdict: the normal form is a
      fixed point of normalisation. */
  lemma NormalizeIdempotent(code: string)
    ensures Normalize(Normalize(code)) == Normalize(code)
    ensures ValidateDriverCode(Normalize(code)) == ValidateDriverCode(code)
  {
    NormalFormFixed(code);
  }

  lemma NormalFormFixed(code: string)
    ensures Normalize(Normalize(code)) == Normalize(code)
  {
    var t := Trim(code);
    var n := Normalize(code);
    assert n == ToUpperCase(t);
    TrimOfTrimmed(n);
    UpperIdempotent(t);
  }

  /** Codes made only of spaces, the empty code included, are rejected. */
  lemma BlankCodeRejected(code: string)
    requires AllSpace(code)
    ensures !ValidateDriverCode(code)
  {
    AllSpaceTrimsToEmpty(code);
  }

  /** Letter case is ignored: the lower-case spelling of a listed code is
      accepted. */
  lemma LowerCaseAccepted()
    ensures ValidateDriverCode("bus77a")
  {
    TrimOfTrimmed("bus77a");
    UpperBus77a();
  }

  lemma UpperBus77a()
    ensures ToUpperCase("bus77a") == "BUS77A"
  {
  }

  /** Surrounding spaces are ignored. */
  lemma PaddedCodeAccepted()
    ensures ValidateDriverCode("  GoKu\t")
  {
    PaddedGoKuTrims();
    UpperGoKu();
  }

  lemma PaddedGoKuTrims()
    ensures Trim("  GoKu\t") == "GoKu"
  {
    assert "  GoKu\t" == "  " + "GoKu" + "\t";
    TrimOfPadded("  ", "GoKu", "\t");
  }

  lemma UpperGoKu()
    ensures ToUpperCase("GoKu") == "GOKU"
  {
  }
}
