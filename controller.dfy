/** The menu front end of GameController.cpp: whitespace tokenizing, validation of
    a one- or two-number move, the option category of a 1-based selection, and the
    dispatch of a move to the single-kill or batch path. */
module GameController {
  import opened GameTypes

  /** Only this many leading characters of a number are validated. */
  const MaxOptionDigits: nat := 5
  const MaxInputs: nat := 2
  /** The valid range of the optional monster count. */
  const ValidCountMin: int := 0
  const ValidCountMax: int := 99999

  /** OptionCategory (GameController.h), an enum over uint32_t: static_cast keeps
      any code, so codes past QUIT are possible values too. */
  type OptionCategory = nat
  const SLAY_MONSTER: OptionCategory := 0
  const SLAY_RANDOM: OptionCategory := 1
  const QUIT: OptionCategory := 2
  const NUM_OPTION_CATEGORIES: OptionCategory := 3

  // ---------------------------------------------------------------- tokens

  /** The characters an istream skips between words (isspace in the C locale). */
  predicate IsSpace(c: char) {
    c == ' ' || c == '\t' || c == '\n' || c == '\r' || c == '\U{000B}' || c == '\U{000C}'
  }

  /** The word an `operator>>` reads from the front of s: its maximal run of
      non-space characters. */
  function LeadingWord(s: string): (w: string)
    ensures |w| <= |s| && w == s[..|w|]
    ensures forall i :: 0 <= i < |w| ==> !IsSpace(w[i])
    ensures |w| < |s| ==> IsSpace(s[|w|])
    ensures s != [] && !IsSpace(s[0]) ==> |w| >= 1
  {
    if s == [] || IsSpace(s[0]) then [] else [s[0]] + LeadingWord(s[1..])
  }

  /** GameController::TokenizeString: the words of s, in order. Every token is
      non-empty and free of whitespace, so there are never more tokens than
      characters. */
  function Tokenize(s: string): (tokens: seq<string>)
    ensures forall i :: 0 <= i < |tokens| ==> IsWord(tokens[i])
    ensures |tokens| <= |s|
    decreases |s|
  {
    if s == [] then []
    else if IsSpace(s[0]) then Tokenize(s[1..])
    else
      var w := LeadingWord(s);
      [w] + Tokenize(s[|w|..])
  }

  predicate IsWord(w: string) {
    w != [] && forall i :: 0 <= i < |w| ==> !IsSpace(w[i])
  }

  /** s with every whitespace character dropped. */
  function RemoveSpaces(s: string): string {
    if s == [] then []
    else (if IsSpace(s[0]) then [] else [s[0]]) + RemoveSpaces(s[1..])
  }

  function Concat(ts: seq<string>): string {
    if ts == [] then [] else ts[0] + Concat(ts[1..])
  }

  /** The tokens joined with single spaces. */
  function JoinWords(ts: seq<string>): string {
    if ts == [] then []
    else if |ts| == 1 then ts[0]
    else ts[0] + " " + JoinWords(ts[1..])
  }

  /** The leading word followed by the rest of the input, spaces removed. */
  lemma {:induction false} RemoveSpacesAfterWord(s: string)
    ensures RemoveSpaces(s) == LeadingWord(s) + RemoveSpaces(s[|LeadingWord(s)|..])
  {
    if s != [] && !IsSpace(s[0]) {
      RemoveSpacesAfterWord(s[1..]);
      assert s[1..][|LeadingWord(s[1..])|..] == s[|LeadingWord(s)|..];
    }
  }

  /** Reading the tokens back in order gives the input without its whitespace:
      tokenizing loses nothing but the separators. */
  lemma {:induction false} TokenizeKeepsText(s: string)
    ensures Concat(Tokenize(s)) == RemoveSpaces(s)
    decreases |s|
  {
    if s != [] {
      if IsSpace(s[0]) {
        TokenizeKeepsText(s[1..]);
      } else {
        var w := LeadingWord(s);
        TokenizeKeepsText(s[|w|..]);
        RemoveSpacesAfterWord(s);
        assert ([w] + Tokenize(s[|w|..]))[1..] == Tokenize(s[|w|..]);
      }
    }
  }

  /** A word followed by nothing or by whitespace is read back whole. */
  lemma {:induction false} LeadingWordOf(w: string, rest: string)
    requires forall i :: 0 <= i < |w| ==> !IsSpace(w[i])
    requires rest == [] || IsSpace(rest[0])
    ensures LeadingWord(w + rest) == w
  {
    if w == [] {
      assert w + rest == rest;
    } else {
      assert (w + rest)[1..] == w[1..] + rest;
      LeadingWordOf(w[1..], rest);
    }
  }

  /** Tokenizing words joined by single spaces gives the words back. */
  lemma {:induction false} TokenizeJoinWords(ts: seq<string>)
    requires forall i :: 0 <= i < |ts| ==> IsWord(ts[i])
    ensures Tokenize(JoinWords(ts)) == ts
  {
    if ts != [] {
      var w := ts[0];
      var rest := if |ts| == 1 then [] else " " + JoinWords(ts[1..]);
      assert JoinWords(ts) == w + rest;
      LeadingWordOf(w, rest);
      assert (w + rest)[|w|..] == rest;
      if |ts| > 1 {
        TokenizeJoinWords(ts[1..]);
        assert rest[1..] == JoinWords(ts[1..]);
      }
    }
  }

  // ---------------------------------------------------------------- numbers

  predicate IsDigit(c: char) {
    '0' <= c <= '9'
  }

  /** `find_first_not_of("0123456789") == npos`: the empty string qualifies. */
  predicate IsDigitString(s: string) {
    forall i :: 0 <= i < |s| ==> IsDigit(s[i])
  }

  /** The decimal value std::stoi reads from a string of digits: k digits give a
      value below 10^k. */
  function DigitsValue(s: string): (v: nat)
    requires IsDigitString(s)
    ensures v < Pow10(|s|)
  {
    if s == [] then 0
    else 10 * DigitsValue(s[..|s| - 1]) + ((s[|s| - 1] as int) - ('0' as int))
  }

  function Pow10(n: nat): nat {
    if n == 0 then 1 else 10 * Pow10(n - 1)
  }

  lemma {:induction false} Pow10Monotone(i: nat, j: nat)
    requires i <= j
    ensures Pow10(i) <= Pow10(j)
  {
    if i < j {
      Pow10Monotone(i, j - 1);
    }
  }

  /** `substr(0, s_maxOptionDigits)`. */
  function Prefix(s: string): (p: string)
    ensures |p| <= MaxOptionDigits && |p| <= |s| && p == s[..|p|]
    ensures |s| <= MaxOptionDigits ==> p == s
    ensures |s| > MaxOptionDigits ==> p == s[..MaxOptionDigits]
  {
    if |s| <= MaxOptionDigits then s else s[..MaxOptionDigits]
  }

  /** The value validated for a token: that of its first five characters. */
  function PrefixValue(s: string): (v: nat)
    requires IsDigitString(s)
    ensures v <= ValidCountMax
  {
    var p := Prefix(s);
    Pow10Monotone(|p|, MaxOptionDigits);
    DigitsValue(p)
  }

  // ---------------------------------------------------------------- validation

  /** The range Initialize sets for n monsters: 1..n slay a type, n+1 slays a
      random monster, n+2 quits. */
  function OptionSelectionRange(numMonsters: nat): (range: (int, int))
    ensures range.0 == 1 && range.1 == numMonsters + 2
    ensures range.1 - range.0 + 1 == numMonsters + (NUM_OPTION_CATEGORIES - 1)
  {
    (1, numMonsters + NUM_OPTION_CATEGORIES - 1)
  }

  predicate AllDigits(tokens: seq<string>) {
    forall i :: 0 <= i < |tokens| ==> IsDigitString(tokens[i])
  }

  /** GameController::IsValidInput against the selection range. std::stoi throws on
      an empty string, which TokenizeString never produces. Since a five-digit prefix
      never exceeds 99999, the count check cannot reject anything: validity is
      decided by the token count, the digits and the first token's range alone. */
  predicate IsValidInput(tokens: seq<string>, range: (int, int))
    requires forall i :: 0 <= i < |tokens| ==> tokens[i] != []
    ensures IsValidInput(tokens, range) <==>
      1 <= |tokens| <= MaxInputs && AllDigits(tokens) &&
      range.0 <= PrefixValue(tokens[0]) <= range.1
  {
    if tokens == [] || |tokens| > MaxInputs then false
    else if !AllDigits(tokens) then false
    else
      var selectionNum := PrefixValue(tokens[0]);
      var isInputValid := range.0 <= selectionNum <= range.1;
      if |tokens| == 2 then
        var numToSlay := PrefixValue(tokens[1]);
        isInputValid && ValidCountMin <= numToSlay <= ValidCountMax
      else isInputValid
  }

  /** No tokens, or more than two, is never a valid move. */
  lemma RejectsTokenCount(tokens: seq<string>, range: (int, int))
    requires forall i :: 0 <= i < |tokens| ==> tokens[i] != []
    requires tokens == [] || |tokens| > MaxInputs
    ensures !IsValidInput(tokens, range)
  {
  }

  /** A token with any character that is not a decimal digit (a sign, a point, a
      letter) makes the move invalid. */
  lemma RejectsNonDigit(tokens: seq<string>, range: (int, int), i: nat, j: nat)
    requires forall k :: 0 <= k < |tokens| ==> tokens[k] != []
    requires i < |tokens| && j < |tokens[i]| && !IsDigit(tokens[i][j])
    ensures !IsValidInput(tokens, range)
  {
  }

  /** Any all-digit count token passes the count range check. */
  lemma CountCheckAlwaysPasses(s: string)
    requires IsDigitString(s)
    ensures ValidCountMin <= PrefixValue(s) <= ValidCountMax
  {
  }

  /** Concrete moves for four monsters: "3 10" is valid; "-1", "1.5", "+3", "0" and
      "7" are not. */
  lemma ValidInputExamples()
    ensures IsValidInput(["3", "10"], OptionSelectionRange(4))
    ensures IsValidInput(["6"], OptionSelectionRange(4))
    ensures !IsValidInput(["-1"], OptionSelectionRange(4))
    ensures !IsValidInput(["1.5"], OptionSelectionRange(4))
    ensures !IsValidInput(["+3"], OptionSelectionRange(4))
    ensures !IsValidInput(["0"], OptionSelectionRange(4))
    ensures !IsValidInput(["7"], OptionSelectionRange(4))
  {
    assert !IsDigit('-') && !IsDigit('.') && !IsDigit('+');
    assert ["-1"][0][0] == '-';
    assert ["1.5"][0][1] == '.';
    assert ["+3"][0][0] == '+';
    assert DigitsValue("3") == 3;
    assert DigitsValue("1") == 1;
    assert DigitsValue("10") == 10;
    assert DigitsValue("6") == 6;
    assert DigitsValue("0") == 0;
    assert DigitsValue("7") == 7;
  }

  // ---------------------------------------------------------------- dispatch

  /** GameController::GetOptionCategoryForSelection for n monsters. Over the valid
      range [1, n+2] the three categories split it as 1..n, n+1 and n+2; past
      n+2 the cast yields codes that are no category. */
  function OptionCategoryForSelection(numMonsters: nat, selection: int): (category: OptionCategory)
    ensures category == SLAY_MONSTER <==> selection <= numMonsters
    ensures category == SLAY_RANDOM <==> selection == numMonsters + 1
    ensures category == QUIT <==> selection == numMonsters + 2
    ensures category < NUM_OPTION_CATEGORIES <==> selection <= numMonsters + 2
  {
    if selection < numMonsters then SLAY_MONSTER else selection - numMonsters
  }

  /** What the Run loop does with one move. */
  datatype Action =
    | Quit
    | SlayOne(kind: Option<MonsterType>)
    | SlayBatch(count: int, kind: Option<MonsterType>)

  /** The decision of GameController::Run for a selection and a count. */
  function Dispatch(numMonsters: nat, selection: int, count: int): (action: Action)
    ensures action.Quit? <==> selection == numMonsters + 2
    ensures !action.Quit? ==> (action.SlayOne? <==> count == 1)
    ensures !action.Quit? ==> (action.kind.None? <==> selection == numMonsters + 1)
    ensures !action.Quit? && action.kind.Some? ==> action.kind.value == selection - 1
    ensures action.SlayBatch? ==> action.count == count
  {
    var category := OptionCategoryForSelection(numMonsters, selection);
    if category == QUIT then Quit
    else
      var kind: Option<MonsterType> := if category != SLAY_RANDOM then Some(selection - 1) else None;
      if count == 1 then SlayOne(kind) else SlayBatch(count, kind)
  }

  /** Within the valid range a move names a monster type exactly for the
      selections 1..n, and that type, s - 1, lies in [0, n). */
  lemma DispatchOfSelection(numMonsters: nat, selection: int, count: int)
    requires 1 <= selection <= numMonsters + 2
    ensures !Dispatch(numMonsters, selection, count).Quit? ==>
      (Dispatch(numMonsters, selection, count).kind.Some? <==> selection <= numMonsters)
    ensures !Dispatch(numMonsters, selection, count).Quit? && Dispatch(numMonsters, selection, count).kind.Some? ==>
      0 <= Dispatch(numMonsters, selection, count).kind.value < numMonsters
  {
  }

  /** The (selection, count) pair GetMoveInput returns for validated tokens: std::stoi
      of each whole token, the count defaulting to one. */
  function MoveSelection(tokens: seq<string>): (sc: (int, int))
    requires 1 <= |tokens| <= MaxInputs && AllDigits(tokens)
    ensures |tokens| == 1 ==> sc.1 == 1
  {
    (DigitsValue(tokens[0]), if |tokens| == 2 then DigitsValue(tokens[1]) else 1)
  }

  /** A valid move whose numbers have at most five digits dispatches to a monster
      type in [0, n), a random kill, or quitting, with a count in [0, 99999]. */
  lemma ValidMoveDispatch(tokens: seq<string>, numMonsters: nat)
    requires forall i :: 0 <= i < |tokens| ==> tokens[i] != [] && |tokens[i]| <= MaxOptionDigits
    requires IsValidInput(tokens, OptionSelectionRange(numMonsters))
    ensures var sc := MoveSelection(tokens);
      1 <= sc.0 <= numMonsters + 2 && ValidCountMin <= sc.1 <= ValidCountMax
    ensures var sc := MoveSelection(tokens);
      var action := Dispatch(numMonsters, sc.0, sc.1);
      (action.SlayOne? || action.SlayBatch?) && action.kind.Some? ==> 0 <= action.kind.value < numMonsters
  {
    var sc := MoveSelection(tokens);
    assert PrefixValue(tokens[0]) == DigitsValue(tokens[0]);
    if |tokens| == 2 {
      assert PrefixValue(tokens[1]) == DigitsValue(tokens[1]);
    }
    DispatchOfSelection(numMonsters, sc.0, sc.1);
  }

  /** GetMoveInput's whole-token parse against the five-character validation: for
      four monsters "000017" validates as selection 1, yet the move dispatched is
      selection 17, past the valid range, which slays the unknown type 16. */
  lemma WholeTokenDivergence()
    ensures IsValidInput(["000017"], OptionSelectionRange(4))
    ensures PrefixValue("000017") == 1
    ensures MoveSelection(["000017"]) == (17, 1)
    ensures Dispatch(4, 17, 1) == SlayOne(Some(16))
  {
    assert Prefix("000017") == "00001";
    assert "000017"[..5] == "00001";
    assert "00001"[..4] == "0000";
    assert "0000"[..3] == "000";
    assert "000"[..2] == "00";
    assert "00"[..1] == "0";
    assert DigitsValue("0") == 0;
    assert DigitsValue("00") == 0;
    assert DigitsValue("000") == 0;
    assert DigitsValue("0000") == 0;
    assert DigitsValue("00001") == 1;
    assert DigitsValue("000017") == 17;
  }
}
