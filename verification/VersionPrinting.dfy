/** The tokenizer of versions/versions.go undoes printing, so every version has a canonical form. */
module VersionPrinting {
  import opened Int64
  import opened Order
  import opened Text
  import opened Versions

  function PrintPart(p: Part): string
    requires WellFormed(p)
  {
    match p
    case Num(n) => Dec(n)
    case Word(t) => t
  }

  /** The parts joined by dots. */
  function PrintParts(ps: seq<Part>): string
    requires AllWellFormed(ps)
  {
    if ps == [] then ""
    else if |ps| == 1 then PrintPart(ps[0])
    else PrintPart(ps[0]) + "." + PrintParts(ps[1..])
  }

  function Print(ps: seq<Part>): string
    requires AllWellFormed(ps)
  {
    "v" + PrintParts(ps)
  }

  predicate NotUpper(c: char) { !IsUpper(c) }

  /** Words in lower case, as the tokenizer leaves them. */
  predicate LowerCase(ps: seq<Part>) {
    forall i :: 0 <= i < |ps| && ps[i].Word? ==> All(ps[i].text, NotUpper)
  }

  predicate Separator(c: char) { !IsDigit(c) && !IsLetter(c) }

  lemma PartsOfOne(p: Part, rest: string)
    requires WellFormed(p)
    requires rest == "" || Separator(rest[0])
    ensures Parts(PrintPart(p) + rest) == [p] + Parts(rest)
  {
    var t := PrintPart(p);
    var s := t + rest;
    assert s[..|t|] == t && s[|t|..] == rest;
    match p
    case Num(n) =>
      RunIs(s, IsDigit, |t|);
      DecRoundTrip(n);
    case Word(_) =>
      RunIs(s, IsLetter, |t|);
  }

  lemma {:induction false} PartsOfPrint(ps: seq<Part>)
    requires AllWellFormed(ps)
    ensures Parts(PrintParts(ps)) == ps
  {
    if |ps| == 1 {
      PartsOfOne(ps[0], "");
      assert PrintPart(ps[0]) + "" == PrintPart(ps[0]);
    } else if |ps| > 1 {
      var tail := PrintParts(ps[1..]);
      PartsOfOne(ps[0], "." + tail);
      PartsOfPrint(ps[1..]);
      assert ("." + tail)[1..] == tail;
      assert PrintPart(ps[0]) + "." + tail == PrintPart(ps[0]) + ("." + tail);
    }
  }

  lemma {:induction false} PrintCharacters(ps: seq<Part>)
    requires AllWellFormed(ps)
    ensures All(PrintParts(ps), Visible)
    ensures LowerCase(ps) ==> All(PrintParts(ps), NotUpper)
  {
    if ps != [] {
      assert WellFormed(ps[0]);
      PrintCharacters(ps[1..]);
    }
  }

  /** Splitting gives back any list of lower-case words and in-range numbers that was printed. */
  lemma SplitPrint(ps: seq<Part>)
    requires AllWellFormed(ps) && LowerCase(ps)
    ensures SplitVersion(Print(ps)) == ps
  {
    var s := Print(ps);
    PrintCharacters(ps);
    TrimVisible(s);
    assert ToLower(s) == s;
    assert s[1..] == PrintParts(ps);
    PartsOfPrint(ps);
  }

  lemma {:induction false} PartsLowerCase(v: string)
    requires All(v, NotUpper)
    ensures LowerCase(Parts(v))
    decreases |v|
  {
    if v == "" {
    } else if IsDigit(v[0]) {
      PartsLowerCase(v[Run(v, IsDigit)..]);
    } else if IsLetter(v[0]) {
      PartsLowerCase(v[Run(v, IsLetter)..]);
    } else {
      PartsLowerCase(v[1..]);
    }
  }

  lemma SplitVersionPrintable(v: string)
    ensures AllWellFormed(SplitVersion(v)) && LowerCase(SplitVersion(v))
  {
    PartsWellFormed(Clean(v));
    assert forall c :: NotUpper(LowerChar(c));
    assert All(Clean(v), NotUpper);
    PartsLowerCase(Clean(v));
  }

  function CanonicalForm(v: string): string
  {
    SplitVersionPrintable(v);
    Print(SplitVersion(v))
  }

  /** Every version, whatever its punctuation, case or number width, equals its canonical form. */
  lemma CanonicalFormIsEqual(v: string)
    ensures SplitVersion(CanonicalForm(v)) == SplitVersion(v)
    ensures VersionOrder(v, CanonicalForm(v)) == 0
    ensures CanonicalForm(CanonicalForm(v)) == CanonicalForm(v)
  {
    SplitVersionPrintable(v);
    SplitPrint(SplitVersion(v));
    VersionOrderZero(v, CanonicalForm(v));
  }
}
