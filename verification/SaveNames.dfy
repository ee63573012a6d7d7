/** The three-letter names and initials of a save, packed five bits a letter. */
module SaveNames {
  import opened BitPacking

  /** Codes 28 to 31 all stand for a space. */
  const ALPHABET: string := "ABCDEFGHIJKLMNOPQRSTUVWXYZ.?    "

  const SPACE_CODE: nat := 28

  /** `kNameAlphabet.find(c)`, with -1 for `npos`. */
  function Find(c: char): (k: int)
    ensures -1 <= k <= SPACE_CODE
  {
    if 'A' <= c <= 'Z' then c as int - 'A' as int
    else if c == '.' then 26
    else if c == '?' then 27
    else if c == ' ' then SPACE_CODE
    else -1
  }

  lemma FindIsFirstIndex(c: char)
    ensures Find(c) >= 0 ==> ALPHABET[Find(c)] == c && forall j :: 0 <= j < Find(c) ==> ALPHABET[j] != c
    ensures Find(c) < 0 ==> c !in ALPHABET
  {
    assert |ALPHABET| == 32;
    assert forall j :: 0 <= j < 26 ==> ALPHABET[j] as int == 'A' as int + j;
    if Find(c) >= 0 { assert ALPHABET[Find(c)] == c; }
  }

  lemma AlphabetAt(k: nat)
    requires k < 32
    ensures |ALPHABET| == 32
    ensures Find(ALPHABET[k]) == if k < SPACE_CODE then k else SPACE_CODE
    ensures ALPHABET[k] == ' ' <==> k >= SPACE_CODE
  {
    assert forall j :: 0 <= j < 26 ==> ALPHABET[j] as int == 'A' as int + j;
  }

  /** One character as the editor stores it: upper case, or a space when it has no code. */
  function Clean(c: char): (r: char)
    ensures Find(r) >= 0
  {
    var upper := if 'a' <= c <= 'z' then c - 'a' + 'A' else c;
    if Find(upper) < 0 then ' ' else upper
  }

  function Sanitised(s: string): (clean: string)
    ensures |clean| == if |s| < 3 then |s| else 3
  {
    seq(if |s| < 3 then |s| else 3, i requires 0 <= i < |s| => Clean(s[i]))
  }

  method SanitiseName(value: string) returns (clean: string)
    ensures clean == Sanitised(value)
  {
    clean := "";
    var index := 0;
    while index < |value| && |clean| != 3
      invariant index == |clean| <= |value| && |clean| <= 3
      invariant clean == Sanitised(value)[..index]
    {
      var character := value[index];
      if 'a' <= character <= 'z' { character := character - 'a' + 'A'; }
      assert Sanitised(value)[index] == Clean(value[index]);
      clean := clean + [if Find(character) < 0 then ' ' else character];
      index := index + 1;
    }
  }

  /** Drops trailing spaces. */
  function Trim(s: string): (t: string)
    ensures |t| <= |s| && t == s[..|t|]
    ensures t == [] || t[|t| - 1] != ' '
    ensures forall i :: |t| <= i < |s| ==> s[i] == ' '
  {
    if s != [] && s[|s| - 1] == ' ' then Trim(s[..|s| - 1]) else s
  }

  /** A trimmed string is fixed by what it trims: no two different ones extend to the same padding. */
  lemma {:induction false} TrimUnique(s: string, t: string)
    requires |t| <= |s| && t == s[..|t|]
    requires t == [] || t[|t| - 1] != ' '
    requires forall i :: |t| <= i < |s| ==> s[i] == ' '
    ensures Trim(s) == t
  {
    if |t| < |s| { TrimUnique(s[..|s| - 1], t); }
  }

  /** The letter of a five-bit code. */
  function Letter(code: nat): (c: char)
    requires code < 32
  {
    assert |ALPHABET| == 32;
    ALPHABET[code]
  }

  lemma LetterCodes(k: nat)
    requires k < 32
    ensures Find(Letter(k)) == if k < SPACE_CODE then k else SPACE_CODE
    ensures Letter(k) == ' ' <==> k >= SPACE_CODE
  {
    AlphabetAt(k);
  }

  lemma LetterOfFind(c: char)
    requires Find(c) >= 0
    ensures Letter(Find(c)) == c
  {
    FindIsFirstIndex(c);
  }

  /** The three letters that a packed name shows before trimming; bit 15 is not part of it. */
  function Letters(packed: u16): (s: string)
    ensures |s| == 3
  {
    [Letter(packed / 1024 % 32), Letter(packed / 32 % 32), Letter(packed % 32)]
  }

  function DecodedName(packed: u16): (name: string)
    ensures |name| <= 3
  {
    Trim(Letters(packed))
  }

  /** `packed` after `k` letters have been shifted out. */
  function Shifted(packed: nat, k: nat): (r: nat) {
    if k == 0 then packed else Shifted(packed, k - 1) / 32
  }

  lemma LettersShifted(packed: u16)
    ensures Letters(packed)
         == [Letter(Shifted(packed, 2) % 32), Letter(Shifted(packed, 1) % 32), Letter(Shifted(packed, 0) % 32)]
  {
    hide Letter;
    assert Shifted(packed, 1) == Shifted(packed, 0) / 32 == packed / 32;
    assert Shifted(packed, 2) == Shifted(packed, 1) / 32;
    assert packed / 32 / 32 == packed / 1024;
  }

  method DecodeName(packed: u16) returns (result: string)
    ensures result == DecodedName(packed)
  {
    hide Letter, Letters, Trim;
    LettersShifted(packed);
    var letters := [' ', ' ', ' '];
    var rest := packed as int;
    for k := 0 to 3
      invariant |letters| == 3 && rest == Shifted(packed, k)
      invariant forall m :: 3 - k <= m < 3 ==> letters[m] == Letter(Shifted(packed, 2 - m) % 32)
    {
      letters := letters[2 - k := Letter(rest % 32)];
      rest := rest / 32;
    }
    assert letters == Letters(packed);
    result := TrimSpaces(letters);
  }

  method TrimSpaces(letters: string) returns (result: string)
    ensures result == Trim(letters)
  {
    result := letters;
    while result != "" && result[|result| - 1] == ' '
      invariant Trim(result) == Trim(letters)
      decreases |result|
    {
      result := result[..|result| - 1];
    }
  }

  function Code(s: string, i: nat): (k: nat)
    ensures k <= SPACE_CODE
  {
    if i < |s| then Find(Clean(s[i])) else SPACE_CODE
  }

  function EncodedName(value: string): (packed: u16) {
    Code(value, 0) * 1024 + Code(value, 1) * 32 + Code(value, 2)
  }

  method EncodeName(value: string) returns (packed: u16)
    ensures packed == EncodedName(value)
  {
    var clean := SanitiseName(value);
    var word := 0;
    for index := 0 to 3
      invariant word == (if index == 0 then 0 else if index == 1 then Code(value, 0)
                         else if index == 2 then Code(value, 0) * 32 + Code(value, 1)
                         else EncodedName(value))
    {
      var character := if index < |clean| then clean[index] else ' ';
      var found := Find(character);
      word := word * 32 + (if found < 0 then 31 else found);
    }
    packed := word;
  }

  /** Bit 15 clear and no letter code above the first space. */
  predicate CanonicalCode(packed: u16) {
    packed < 0x8000 && packed / 1024 <= SPACE_CODE && packed / 32 % 32 <= SPACE_CODE && packed % 32 <= SPACE_CODE
  }

  /** What a name becomes after it has been written and read back. */
  function NormalName(value: string): (name: string) {
    Trim(Sanitised(value))
  }

  lemma Unpack(a: nat, b: nat, c: nat)
    requires a <= SPACE_CODE && b <= SPACE_CODE && c <= SPACE_CODE
    ensures var p := a * 1024 + b * 32 + c;
            p < 0x8000 && p / 1024 % 32 == p / 1024 == a && p / 32 % 32 == b && p % 32 == c
  {
    var p := a * 1024 + b * 32 + c;
    assert p / 32 == a * 32 + b;
  }

  lemma Repack(p: nat)
    requires p < 0x8000
    ensures p == p / 1024 % 32 * 1024 + p / 32 % 32 * 32 + p % 32
  {
    var q := p / 32;
    assert q / 32 == p / 1024;
  }

  lemma EncodedCodes(value: string)
    ensures var p := EncodedName(value);
            p / 1024 % 32 == p / 1024 == Code(value, 0) && p / 32 % 32 == Code(value, 1) && p % 32 == Code(value, 2)
    ensures CanonicalCode(EncodedName(value))
  {
    hide Code;
    Unpack(Code(value, 0), Code(value, 1), Code(value, 2));
  }

  /** Padding with spaces makes no difference to a trimmed string. */
  lemma PaddedTrim(padded: string, clean: string)
    requires |clean| <= |padded|
    requires forall i :: 0 <= i < |padded| ==> padded[i] == if i < |clean| then clean[i] else ' '
    ensures Trim(padded) == Trim(clean)
  {
    hide Trim;
    TrimUnique(padded, Trim(clean));
  }

  lemma CodeLetter(value: string, i: nat)
    ensures Letter(Code(value, i)) == if i < |value| then Clean(value[i]) else ' '
  {
    hide Letter, Find, Clean;
    if i < |value| { LetterOfFind(Clean(value[i])); } else { LetterCodes(SPACE_CODE); }
  }

  lemma EncodedLetters(value: string)
    ensures Letters(EncodedName(value)) == [Letter(Code(value, 0)), Letter(Code(value, 1)), Letter(Code(value, 2))]
  {
    hide Letter, Code, EncodedName;
    EncodedCodes(value);
  }

  lemma NameRoundTrip(value: string)
    ensures DecodedName(EncodedName(value)) == NormalName(value)
  {
    hide Letter, Letters, Code, EncodedName, Trim, Clean, Find;
    EncodedLetters(value);
    CodeLetter(value, 0);
    CodeLetter(value, 1);
    CodeLetter(value, 2);
    PaddedTrim(Letters(EncodedName(value)), Sanitised(value));
  }

  /** The codes that a decoded name is written back with. */
  lemma CodeOfDecoded(packed: u16, i: nat)
    requires i < 3
    ensures Code(DecodedName(packed), i) == Find(Letters(packed)[i])
  {
    hide Letter, Find, Clean, Trim;
    LetterCodes(packed / 1024 % 32);
    LetterCodes(packed / 32 % 32);
    LetterCodes(packed % 32);
    LetterCodes(SPACE_CODE);
    var name := DecodedName(packed);
    if i < |name| { CleanIsIdentity(name[i]); } else { assert Letters(packed)[i] == ' '; SpaceCode(); }
  }

  lemma SpaceCode()
    ensures Find(' ') == SPACE_CODE
  {
  }

  /** Packed codes survive a decode and encode exactly when they are canonical. */
  lemma CodeRoundTrip(packed: u16)
    ensures EncodedName(DecodedName(packed)) == packed <==> CanonicalCode(packed)
  {
    hide Code, Find, Letter, DecodedName;
    CodeOfDecoded(packed, 0);
    CodeOfDecoded(packed, 1);
    CodeOfDecoded(packed, 2);
    LetterCodes(packed / 1024 % 32);
    LetterCodes(packed / 32 % 32);
    LetterCodes(packed % 32);
    if CanonicalCode(packed) { Repack(packed); }
    EncodedCodes(DecodedName(packed));
  }

  lemma CleanIsIdentity(c: char)
    requires Find(c) >= 0
    ensures Clean(c) == c
  {
  }

  lemma NormalNameIdempotent(value: string)
    ensures NormalName(NormalName(value)) == NormalName(value)
  {
    var name := NormalName(value);
    forall i | 0 <= i < |name| ensures Sanitised(name)[i] == name[i] {
      CleanIsIdentity(name[i]);
    }
    assert Sanitised(name) == name;
    TrimUnique(name, name);
  }

  lemma DecodedNameIsNormal(packed: u16)
    ensures NormalName(DecodedName(packed)) == DecodedName(packed)
  {
    hide Letter, Find, Clean, Trim;
    var name := DecodedName(packed);
    LetterCodes(packed / 1024 % 32);
    LetterCodes(packed / 32 % 32);
    LetterCodes(packed % 32);
    forall i | 0 <= i < |name| ensures Sanitised(name)[i] == name[i] {
      assert name[i] == Letters(packed)[i];
      CleanIsIdentity(name[i]);
    }
    assert Sanitised(name) == name;
    TrimUnique(name, name);
  }

  /** A name that is written and read back unchanged: short, in the alphabet, no trailing space. */
  predicate StorableName(name: string) {
    |name| <= 3 && (forall i :: 0 <= i < |name| ==> name[i] in ALPHABET) && (name == [] || name[|name| - 1] != ' ')
  }

  lemma InAlphabet(c: char)
    ensures c in ALPHABET <==> Find(c) >= 0
  {
    FindIsFirstIndex(c);
  }

  lemma NormalNameExactly(name: string)
    ensures NormalName(name) == name <==> StorableName(name)
  {
    hide Find, Clean;
    forall i | 0 <= i < |name| ensures name[i] in ALPHABET <==> Find(name[i]) >= 0 {
      InAlphabet(name[i]);
    }
    if StorableName(name) {
      forall i | 0 <= i < |name| ensures Clean(name[i]) == name[i] { CleanIsIdentity(name[i]); }
      assert Sanitised(name) == name;
      TrimUnique(name, name);
    }
    if NormalName(name) == name {
      forall i | 0 <= i < |name| ensures Find(name[i]) >= 0 { assert name[i] == Sanitised(name)[i]; }
    }
  }
}
