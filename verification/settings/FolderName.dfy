/** A folder name for a new game that no existing folder has, as filenames are compared. */
module FolderName {
  import opened Numerals

  /** The characters that suffixes are made of. */
  predicate IsPlain(c: char) {
    c == ' ' || c == '(' || c == ')' || '0' <= c <= '9'
  }

  /** How a filename comparison reads one character: any case folding that leaves plain characters alone. */
  type Fold = char -> string

  ghost predicate IsFold(fold: Fold) {
    forall c :: IsPlain(c) ==> fold(c) == [c]
  }

  function FoldAll(fold: Fold, s: string): string {
    if s == [] then [] else fold(s[0]) + FoldAll(fold, s[1..])
  }

  /** Filenames are equal if they read the same. */
  predicate SameFilename(fold: Fold, a: string, b: string) {
    FoldAll(fold, a) == FoldAll(fold, b)
  }

  predicate IsTaken(fold: Fold, existing: seq<string>, name: string) {
    exists e :: e in existing && SameFilename(fold, name, e)
  }

  function Suffix(i: nat): (s: string)
    ensures s != [] && forall j :: 0 <= j < |s| ==> IsPlain(s[j])
  {
    assert forall c :: c in Digits(i, Decimal) ==> IsPlain(c);
    " (" + Digits(i, Decimal) + ")"
  }

  lemma SuffixIsInjective(i: nat, j: nat)
    requires Suffix(i) == Suffix(j)
    ensures i == j
  {
    assert Suffix(i)[2..|Suffix(i)| - 1] == Digits(i, Decimal);
    assert Suffix(j)[2..|Suffix(j)| - 1] == Digits(j, Decimal);
    DigitsReadBack(i, Decimal);
    DigitsReadBack(j, Decimal);
  }

  /** The names to try, in order. */
  function Candidate(baseName: string, i: nat): string {
    if i == 0 then baseName else baseName + Suffix(i)
  }

  lemma {:induction false} FoldOfConcat(fold: Fold, s: string, t: string)
    ensures FoldAll(fold, s + t) == FoldAll(fold, s) + FoldAll(fold, t)
  {
    if s == [] {
      assert s + t == t;
    } else {
      assert (s + t)[1..] == s[1..] + t;
      FoldOfConcat(fold, s[1..], t);
    }
  }

  lemma {:induction false} FoldKeepsPlain(fold: Fold, s: string)
    requires IsFold(fold) && forall i :: 0 <= i < |s| ==> IsPlain(s[i])
    ensures FoldAll(fold, s) == s
  {
    if s != [] {
      assert IsPlain(s[0]);
      FoldKeepsPlain(fold, s[1..]);
    }
  }

  /** What a candidate reads as. */
  lemma FoldOfCandidate(fold: Fold, baseName: string, i: nat)
    requires IsFold(fold)
    ensures FoldAll(fold, Candidate(baseName, i)) == FoldAll(fold, baseName) + (if i == 0 then [] else Suffix(i))
  {
    hide FoldAll, Suffix;
    if i > 0 {
      FoldOfConcat(fold, baseName, Suffix(i));
      FoldKeepsPlain(fold, Suffix(i));
    }
  }

  lemma SamePrefix(p: string, s: string, t: string)
    requires p + s == p + t
    ensures s == t
  {
    assert (p + s)[|p|..] == s && (p + t)[|p|..] == t;
  }

  /** No two candidates are the same filename. */
  lemma CandidatesDiffer(fold: Fold, baseName: string, i: nat, j: nat)
    requires IsFold(fold) && SameFilename(fold, Candidate(baseName, i), Candidate(baseName, j))
    ensures i == j
  {
    FoldOfCandidate(fold, baseName, i);
    FoldOfCandidate(fold, baseName, j);
    hide FoldAll, Suffix;
    SamePrefix(FoldAll(fold, baseName), if i == 0 then [] else Suffix(i), if j == 0 then [] else Suffix(j));
    if i > 0 && j > 0 {
      SuffixIsInjective(i, j);
    }
  }

  /** What the i-th candidate reads as. */
  ghost function Reading(fold: Fold, baseName: string, i: nat): string {
    FoldAll(fold, Candidate(baseName, i))
  }

  /** The readings of the first k candidates. */
  ghost function Readings(fold: Fold, baseName: string, k: nat): set<string> {
    if k == 0 then {} else Readings(fold, baseName, k - 1) + {Reading(fold, baseName, k - 1)}
  }

  lemma {:induction false} ReadingOfSome(fold: Fold, baseName: string, k: nat, r: string) returns (i: nat)
    requires r in Readings(fold, baseName, k)
    ensures i < k && r == Reading(fold, baseName, i)
  {
    hide Reading;
    if r == Reading(fold, baseName, k - 1) {
      i := k - 1;
    } else {
      i := ReadingOfSome(fold, baseName, k - 1, r);
    }
  }

  lemma SameReading(fold: Fold, baseName: string, i: nat, j: nat)
    requires IsFold(fold) && Reading(fold, baseName, i) == Reading(fold, baseName, j)
    ensures i == j
  {
    CandidatesDiffer(fold, baseName, i, j);
  }

  lemma {:induction false} ReadingsAreMany(fold: Fold, baseName: string, k: nat)
    requires IsFold(fold)
    ensures |Readings(fold, baseName, k)| == k
  {
    hide Reading;
    if k > 0 {
      ReadingsAreMany(fold, baseName, k - 1);
      if Reading(fold, baseName, k - 1) in Readings(fold, baseName, k - 1) {
        var i := ReadingOfSome(fold, baseName, k - 1, Reading(fold, baseName, k - 1));
        SameReading(fold, baseName, k - 1, i);
      }
    }
  }

  function ReadingsOf(fold: Fold, names: seq<string>): (r: set<string>)
    ensures |r| <= |names|
    ensures forall e :: e in names ==> FoldAll(fold, e) in r
  {
    if names == [] then {}
    else
      assert forall e :: e in names ==> e == names[0] || e in names[1..];
      {FoldAll(fold, names[0])} + ReadingsOf(fold, names[1..])
  }

  lemma SubsetIsSmaller(x: set<string>, y: set<string>)
    requires x <= y
    ensures |x| <= |y|
  {
    assert |y - x| == |y| - |x|;
  }

  /** Pigeonhole: k candidates can only all be taken if there are that many existing names. */
  lemma TakenCandidatesAreFew(fold: Fold, baseName: string, existing: seq<string>, k: nat)
    requires IsFold(fold) && forall i: nat :: i < k ==> IsTaken(fold, existing, Candidate(baseName, i))
    ensures k <= |existing|
  {
    ReadingsAreMany(fold, baseName, k);
    var x, y := Readings(fold, baseName, k), ReadingsOf(fold, existing);
    forall r | r in x ensures r in y {
      var i := ReadingOfSome(fold, baseName, k, r);
      var e :| e in existing && SameFilename(fold, Candidate(baseName, i), e);
    }
    SubsetIsSmaller(x, y);
  }

  /** The text says the number in decimal, without leading zeros. */
  predicate Says(s: string, n: nat) {
    s != [] && (forall c :: c in s ==> '0' <= c <= '9') && (n > 0 ==> s[0] != '0') && Value(s, Decimal) == n
  }

  lemma CandidateSaysItsNumber(baseName: string, i: nat)
    ensures i == 0 ==> Candidate(baseName, i) == baseName
    ensures i > 0 ==> exists s :: Says(s, i) && Candidate(baseName, i) == baseName + " (" + s + ")"
  {
    if i > 0 {
      DigitsReadBack(i, Decimal);
      NoLeadingZero(i, Decimal);
      assert Says(Digits(i, Decimal), i);
      assert baseName + (" (" + Digits(i, Decimal) + ")") == baseName + " (" + Digits(i, Decimal) + ")";
    }
  }

  /** The first candidate that is not taken. */
  method DeriveFolderName(baseName: string, existingFolderNames: seq<string>, fold: Fold)
    returns (name: string, ghost tried: nat)
    requires IsFold(fold)
    ensures name == Candidate(baseName, tried) && !IsTaken(fold, existingFolderNames, name)
    ensures forall i: nat :: i < tried ==> IsTaken(fold, existingFolderNames, Candidate(baseName, i))
    ensures tried <= |existingFolderNames|
    ensures tried == 0 ==> name == baseName
    ensures tried > 0 ==> exists s :: Says(s, tried) && name == baseName + " (" + s + ")"
  {
    name := baseName;
    var suffixIndex := 1;
    var taken := AnyTaken(fold, existingFolderNames, name);
    while taken
      invariant suffixIndex >= 1 && name == Candidate(baseName, suffixIndex - 1)
      invariant taken <==> IsTaken(fold, existingFolderNames, name)
      invariant forall i: nat :: i < suffixIndex - 1 ==> IsTaken(fold, existingFolderNames, Candidate(baseName, i))
      decreases |existingFolderNames| + 1 - suffixIndex, taken
    {
      TakenCandidatesAreFew(fold, baseName, existingFolderNames, suffixIndex);
      name := baseName + (" (" + Digits(suffixIndex, Decimal) + ")");
      suffixIndex := suffixIndex + 1;
      taken := AnyTaken(fold, existingFolderNames, name);
    }
    tried := suffixIndex - 1;
    TakenCandidatesAreFew(fold, baseName, existingFolderNames, tried);
    CandidateSaysItsNumber(baseName, tried);
  }

  method AnyTaken(fold: Fold, existing: seq<string>, name: string) returns (taken: bool)
    ensures taken <==> IsTaken(fold, existing, name)
  {
    for i := 0 to |existing|
      invariant forall j :: 0 <= j < i ==> !SameFilename(fold, name, existing[j])
    {
      if SameFilename(fold, name, existing[i]) {
        return true;
      }
    }
    return false;
  }
}
