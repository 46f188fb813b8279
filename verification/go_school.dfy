/**
 * The Go school model (model/school/school.go): an acronym, a name and at
 * least one canteen, no two of which are equal.
 */
module GoSchool {
  import opened Wrappers
  import opened Text
  import opened FieldErrors
  import opened Duplicates
  import GoCanteen

  type Canteen = GoCanteen.Canteen

  /** The school; `canteens` is unexported in the source and read through Canteens. */
  datatype School = School(acronym: string, name: string, canteens: seq<Canteen>)

  const AcronymError := FieldError("acronym", "school", "")
  const NameError := FieldError("name", "school", "")
  const CanteensError := FieldError("canteens", "school", "")

  function GrantAcronymIsNotEmpty(acronym: string): (e: Option<FieldError>)
    ensures e.Some? <==> AllSpace(acronym, GoIsSpace)
    ensures e.Some? ==> e.value == AcronymError
  {
    if TrimsToEmpty(acronym, GoIsSpace) then Some(AcronymError) else None
  }

  /**
   * The whitespace check as the source writes it: it walks the acronym's
   * BYTES from the last to the first and asks unicode.IsSpace of each byte
   * taken as a code point.
   */
  predicate AcronymHasSpaceByte(acronym: string) {
    exists k :: 0 <= k < |Utf8(acronym)| && GoIsSpace(Utf8(acronym)[k] as char)
  }

  /**
   * grantSchoolAcronymDoesNotHaveSpacesBetweenLetters as written, loop and
   * all: the index runs down from the last byte and is set to the sentinel
   * -2 on the first whitespace byte.
   */
  method GrantNoSpacesAsWritten(acronym: string) returns (e: Option<FieldError>)
    ensures e.Some? <==> AcronymHasSpaceByte(acronym)
    ensures e.Some? ==> e.value == AcronymError
  {
    var bytes := Utf8(acronym);
    var index := |bytes| - 1;
    while index >= 0
      invariant -2 <= index < |bytes|
      invariant index >= -1 ==> forall k :: index < k < |bytes| ==> !GoIsSpace(bytes[k] as char)
      invariant index == -2 ==> AcronymHasSpaceByte(acronym)
      decreases index + 2
    {
      if GoIsSpace(bytes[index] as char) {
        index := -2;
      } else {
        index := index - 1;
      }
    }
    e := if index == -2 then Some(AcronymError) else None;
  }

  /**
   * The whitespace check as intended: no character of the acronym, at any
   * position, is whitespace. NewIntended uses this one.
   */
  function GrantAcronymHasNoSpaces(acronym: string): (e: Option<FieldError>)
    ensures e.Some? <==> exists i :: 0 <= i < |acronym| && GoIsSpace(acronym[i])
    ensures e.Some? ==> e.value == AcronymError
  {
    if HasSpace(acronym, GoIsSpace) then Some(AcronymError) else None
  }

  /** Byte-wise and character-wise checks agree on ASCII acronyms. */
  lemma AsciiChecksAgree(acronym: string)
    requires IsAscii(acronym)
    ensures AcronymHasSpaceByte(acronym) <==> HasSpace(acronym, GoIsSpace)
  {
    AsciiUtf8(acronym);
    if AcronymHasSpaceByte(acronym) {
      var k :| 0 <= k < |Utf8(acronym)| && GoIsSpace(Utf8(acronym)[k] as char);
      assert acronym[k] == Utf8(acronym)[k] as char;
    }
    if HasSpace(acronym, GoIsSpace) {
      var i :| 0 <= i < |acronym| && GoIsSpace(acronym[i]);
      assert acronym[i] == Utf8(acronym)[i] as char;
    }
  }

  /**
   * The byte-wise check rejects "à" (UTF-8 C3 A0): the continuation byte A0
   * read as a code point is NO-BREAK SPACE.
   */
  lemma ByteCheckRejectsAccentedLetter()
    ensures AcronymHasSpaceByte("\U{00E0}")
    ensures !HasSpace("\U{00E0}", GoIsSpace)
  {
    assert Utf8("\U{00E0}") == [0xC3, 0xA0];
    assert GoIsSpace(Utf8("\U{00E0}")[1] as char);
  }

  /**
   * The byte-wise check accepts an ideographic space (U+3000, UTF-8 E3 80 80)
   * between letters, which the character-wise check rejects.
   */
  lemma ByteCheckAcceptsIdeographicSpace()
    ensures !AcronymHasSpaceByte("A\U{3000}B")
    ensures HasSpace("A\U{3000}B", GoIsSpace)
  {
    assert Utf8("A\U{3000}B") == [0x41, 0xE3, 0x80, 0x80, 0x42];
    assert GoIsSpace("A\U{3000}B"[1]);
  }

  function GrantNameIsNotEmpty(name: string): (e: Option<FieldError>)
    ensures e.Some? <==> AllSpace(name, GoIsSpace)
    ensures e.Some? ==> e.value == NameError
  {
    if TrimsToEmpty(name, GoIsSpace) then Some(NameError) else None
  }

  /** A nil slice and an empty slice both have length zero. */
  function GrantAtLeastOneCanteen(canteens: seq<Canteen>): (e: Option<FieldError>)
    ensures e.Some? <==> canteens == []
    ensures e.Some? ==> e.value == CanteensError
  {
    if |canteens| == 0 then Some(CanteensError) else None
  }

  /** grantNoDuplicatedCanteensExist under Canteen.Equals, given here as `equals`. */
  function GrantNoDuplicatedCanteens(canteens: seq<Canteen>, equals: (Canteen, Canteen) -> bool)
    : (e: Option<FieldError>)
    ensures e.Some? <==> exists i, j :: 0 <= i < j < |canteens| && equals(canteens[i], canteens[j])
    ensures e.Some? ==> e.value == CanteensError
  {
    if HasEqualPair(canteens, equals) then Some(CanteensError) else None
  }

  /**
   * The acronym passes both acronym checks as the source performs them: it
   * does not trim to empty, and none of its UTF-8 bytes reads as whitespace.
   */
  predicate AcronymOk(acronym: string) {
    !AllSpace(acronym, GoIsSpace) && !AcronymHasSpaceByte(acronym)
  }

  /** The invariant New establishes and AddCanteen preserves. */
  predicate Valid(school: School, equals: (Canteen, Canteen) -> bool) {
    && AcronymOk(school.acronym)
    && !AllSpace(school.name, GoIsSpace)
    && |school.canteens| > 0
    && !HasEqualPair(school.canteens, equals)
  }

  /**
   * New: acronym empty, acronym whitespace (the byte-wise check the source
   * calls), name empty, no canteens, duplicated canteens, in that order; the
   * first failure is reported and the school is returned with the given
   * fields even on error.
   */
  function New(acronym: string, name: string, canteens: seq<Canteen>, equals: (Canteen, Canteen) -> bool)
    : (r: Checked<School>)
    ensures r.value == School(acronym, name, canteens)
    ensures r.err == Some(AcronymError) <==> !AcronymOk(acronym)
    ensures r.err == Some(NameError) <==> AcronymOk(acronym) && AllSpace(name, GoIsSpace)
    ensures r.err == Some(CanteensError) <==>
              AcronymOk(acronym) && !AllSpace(name, GoIsSpace) && (|canteens| == 0 || HasEqualPair(canteens, equals))
    ensures r.err.None? <==> Valid(r.value, equals)
  {
    var school := School(acronym, name, canteens);
    var err := GrantAcronymIsNotEmpty(acronym);
    if err.Some? then Checked(school, err)
    else if AcronymHasSpaceByte(acronym) then Checked(school, Some(AcronymError))
    else
      var err := GrantNameIsNotEmpty(name);
      if err.Some? then Checked(school, err)
      else
        var err := GrantAtLeastOneCanteen(canteens);
        if err.Some? then Checked(school, err)
        else Checked(school, GrantNoDuplicatedCanteens(canteens, equals))
  }

  /** The acronym passes both acronym checks as intended: it is non-empty and has no whitespace character. */
  predicate IntendedAcronymOk(acronym: string) {
    |acronym| > 0 && !HasSpace(acronym, GoIsSpace)
  }

  /** New with the corrected, character-wise whitespace check in place of the byte loop. */
  function NewIntended(acronym: string, name: string, canteens: seq<Canteen>, equals: (Canteen, Canteen) -> bool)
    : (r: Checked<School>)
    ensures r.value == School(acronym, name, canteens)
    ensures r.err == Some(AcronymError) <==> !IntendedAcronymOk(acronym)
    ensures r.err == Some(NameError) <==> IntendedAcronymOk(acronym) && AllSpace(name, GoIsSpace)
    ensures r.err == Some(CanteensError) <==>
              IntendedAcronymOk(acronym) && !AllSpace(name, GoIsSpace) && (|canteens| == 0 || HasEqualPair(canteens, equals))
  {
    var school := School(acronym, name, canteens);
    var err := GrantAcronymIsNotEmpty(acronym);
    if err.Some? then Checked(school, err)
    else
      var err := GrantAcronymHasNoSpaces(acronym);
      if err.Some? then Checked(school, err)
      else
        var err := GrantNameIsNotEmpty(name);
        if err.Some? then Checked(school, err)
        else
          var err := GrantAtLeastOneCanteen(canteens);
          if err.Some? then Checked(school, err)
          else Checked(school, GrantNoDuplicatedCanteens(canteens, equals))
  }

  /** On an ASCII acronym the constructor as written and the corrected one agree. */
  lemma NewAgreesOnAscii(acronym: string, name: string, canteens: seq<Canteen>, equals: (Canteen, Canteen) -> bool)
    requires IsAscii(acronym)
    ensures New(acronym, name, canteens, equals) == NewIntended(acronym, name, canteens, equals)
  {
    AsciiChecksAgree(acronym);
  }

  /** "à" shows the two constructors apart: only the one as written rejects it. */
  lemma NewRejectsAccentedAcronym(name: string, canteen: Canteen, equals: (Canteen, Canteen) -> bool)
    requires !AllSpace(name, GoIsSpace)
    ensures New("\U{00E0}", name, [canteen], equals).err == Some(AcronymError)
    ensures NewIntended("\U{00E0}", name, [canteen], equals).err.None?
  {
    ByteCheckRejectsAccentedLetter();
  }

  /** Canteens: a copy of the school's canteens, element for element. */
  function Canteens(school: School): (r: seq<Canteen>)
    ensures |r| == |school.canteens| && forall i :: 0 <= i < |r| ==> r[i] == school.canteens[i]
  {
    school.canteens[..]
  }

  /**
   * AddCanteen: append to a copy, re-check the whole copy for duplicates and
   * commit only on success; on failure the school is unchanged.
   */
  function AddCanteen(school: School, canteen: Canteen, equals: (Canteen, Canteen) -> bool)
    : (r: Checked<School>)
    ensures r.err.None? <==> !HasEqualPair(school.canteens + [canteen], equals)
    ensures r.err.None? ==> r.value == school.(canteens := school.canteens + [canteen])
    ensures r.err.Some? ==> r.value == school && r.err == Some(CanteensError)
  {
    var extended := Canteens(school) + [canteen];
    var err := GrantNoDuplicatedCanteens(extended, equals);
    if err.None? then Checked(school.(canteens := extended), err) else Checked(school, err)
  }

  /** AddCanteen keeps a valid school valid, and grows it by one exactly when it succeeds. */
  lemma AddCanteenPreservesValid(school: School, canteen: Canteen, equals: (Canteen, Canteen) -> bool)
    requires Valid(school, equals)
    ensures Valid(AddCanteen(school, canteen, equals).value, equals)
    ensures AddCanteen(school, canteen, equals).err.None? <==>
              forall i :: 0 <= i < |school.canteens| ==> !equals(school.canteens[i], canteen)
    ensures |Canteens(AddCanteen(school, canteen, equals).value)| ==
              |school.canteens| + (if AddCanteen(school, canteen, equals).err.None? then 1 else 0)
  {
    AppendPair(school.canteens, canteen, equals);
  }

  /** The acronym cases of the constructor's tests (model/school/school_test.go). */
  lemma NewMatchesAcronymTests(cantina: Canteen, equals: (Canteen, Canteen) -> bool)
    ensures New("", "Instituto Superior de Engenharia do Porto", [cantina], equals).err == Some(AcronymError)
    ensures New(" ", "Instituto Superior de Engenharia do Porto", [cantina], equals).err == Some(AcronymError)
    ensures New("IS EP", "Instituto Superior de Engenharia do Porto", [cantina], equals).err == Some(AcronymError)
  {
    AsciiChecksAgree("IS EP");
    assert GoIsSpace("IS EP"[2]);
  }

  /** The name cases of the constructor's tests. */
  lemma NewMatchesNameTests(cantina: Canteen, equals: (Canteen, Canteen) -> bool)
    ensures New("ISEP", "", [cantina], equals).err == Some(NameError)
    ensures New("ISEP", " ", [cantina], equals).err == Some(NameError)
  {
    AsciiChecksAgree("ISEP");
    assert !GoIsSpace("ISEP"[0]);
  }

  /** The canteen cases of the constructor's tests, and the valid school. */
  lemma NewMatchesCanteenTests(cantina: Canteen, equals: (Canteen, Canteen) -> bool)
    requires equals(cantina, cantina)
    ensures New("ISEP", "Instituto Superior de Engenharia do Porto", [], equals).err == Some(CanteensError)
    ensures New("ISEP", "Instituto Superior de Engenharia do Porto", [cantina, cantina], equals).err == Some(CanteensError)
    ensures New("ISEP", "Instituto Superior de Engenharia do Porto", [cantina], equals).err.None?
  {
    var name := "Instituto Superior de Engenharia do Porto";
    assert !GoIsSpace(name[0]);
    AsciiChecksAgree("ISEP");
    assert !GoIsSpace("ISEP"[0]);
    var twice := [cantina, cantina];
    assert equals(twice[0], twice[1]);
  }
}
