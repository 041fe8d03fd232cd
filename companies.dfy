/**
 * The client companies of the production system: the `Company` record, its
 * domain rule (`Company.clean`), the country and line-of-business labels, and
 * the name order and case-insensitive matching the database applies to them.
 */
module Companies {
  import opened Wrappers
  import opened PyValue

  /** A stored company. `id` is its primary key. */
  datatype Company = Company(id: nat, name: string, domain: string, rubro: string, pais: string, activo: bool)

  // ---------------------------------------------------------------------------
  // Order and matching, as the SQLite backend applies them

  /** Byte order of UTF-8 text, which is code-point order: `a` sorts no later than `b`. */
  predicate NameLe(a: string, b: string)
    decreases |a|
  {
    a == [] || (b != [] && (a[0] < b[0] || (a[0] == b[0] && NameLe(a[1..], b[1..]))))
  }

  lemma {:induction false} NameLeTotal(a: string, b: string)
    ensures NameLe(a, b) || NameLe(b, a)
    decreases |a|
  {
    if a != [] && b != [] && a[0] == b[0] {
      NameLeTotal(a[1..], b[1..]);
    }
  }

  lemma {:induction false} NameLeTrans(a: string, b: string, c: string)
    requires NameLe(a, b) && NameLe(b, c)
    ensures NameLe(a, c)
    decreases |a|
  {
    if a != [] && b != [] && c != [] && a[0] == b[0] && b[0] == c[0] {
      NameLeTrans(a[1..], b[1..], c[1..]);
    }
  }

  lemma {:induction false} NameLeAntisym(a: string, b: string)
    requires NameLe(a, b) && NameLe(b, a)
    ensures a == b
    decreases |a|
  {
    if a != [] && b != [] {
      NameLeAntisym(a[1..], b[1..]);
      assert a == [a[0]] + a[1..] && b == [b[0]] + b[1..];
    }
  }

  /** SQLite's `LIKE` folds ASCII letters only. */
  function AsciiLower(c: char): char {
    if 'A' <= c <= 'Z' then (c as int + 32) as char else c
  }

  function AsciiLowerAll(s: string): (r: string)
    ensures |r| == |s|
    ensures forall i :: 0 <= i < |s| ==> r[i] == AsciiLower(s[i])
  {
    if s == [] then [] else [AsciiLower(s[0])] + AsciiLowerAll(s[1..])
  }

  /** `name__icontains=pattern`. */
  predicate IContains(name: string, pattern: string) {
    Contains(AsciiLowerAll(name), AsciiLowerAll(pattern))
  }

  /**
   * `.first()` of the companies satisfying the filter under `ordering = ['name']`:
   * the least name, the earliest row among equal names.
   */
  function FirstByName(cs: seq<Company>, pattern: string): (r: Option<nat>)
    ensures r.Some? ==> r.value < |cs| && IContains(cs[r.value].name, pattern)
    ensures r.None? <==> forall j :: 0 <= j < |cs| ==> !IContains(cs[j].name, pattern)
    decreases |cs|
  {
    if cs == [] then None
    else
      var rest := FirstByName(cs[1..], pattern);
      if !IContains(cs[0].name, pattern) then
        if rest.Some? then Some(rest.value + 1) else None
      else if rest.Some? && !NameLe(cs[0].name, cs[1..][rest.value].name) then
        Some(rest.value + 1)
      else
        Some(0)
  }

  /** The company `.first()` picks has the least name among the matches, and is the earliest of equal names. */
  lemma {:induction false} FirstByNameLeast(cs: seq<Company>, pattern: string, j: nat)
    requires j < |cs| && IContains(cs[j].name, pattern)
    ensures FirstByName(cs, pattern).Some?
    ensures var i := FirstByName(cs, pattern).value;
      NameLe(cs[i].name, cs[j].name) && (cs[j].name == cs[i].name ==> i <= j)
    decreases |cs|
  {
    var rest := FirstByName(cs[1..], pattern);
    var i := FirstByName(cs, pattern).value;
    if j == 0 {
      if i != 0 {
        NameLeTotal(cs[0].name, cs[i].name);
      } else {
        NameLeRefl(cs[0].name);
      }
    } else {
      FirstByNameLeast(cs[1..], pattern, j - 1);
      var k := rest.value;
      if i == 0 {
        NameLeTrans(cs[0].name, cs[1..][k].name, cs[j].name);
        if cs[j].name == cs[0].name {
          assert j >= 0;
        }
      } else {
        assert i == k + 1;
      }
    }
  }

  lemma {:induction false} NameLeRefl(a: string)
    ensures NameLe(a, a)
    decreases |a|
  {
    if a != [] {
      NameLeRefl(a[1..]);
    }
  }

  // ---------------------------------------------------------------------------
  // Company.clean

  /** `s.replace(c, '')` keeps exactly the other characters. */
  lemma {:induction false} RemoveCharMembers(s: string, c: char, x: char)
    ensures x in ReplaceChar(s, c, "") <==> x in s && x != c
    decreases |s|
  {
    if s != [] {
      RemoveCharMembers(s[1..], c, x);
      assert s == [s[0]] + s[1..];
    }
  }

  /** The domain with its dots and hyphens removed. */
  function Stripped(domain: string): string {
    ReplaceChar(ReplaceChar(domain, '.', ""), '-', "")
  }

  lemma StrippedMembers(domain: string, x: char)
    ensures x in Stripped(domain) <==> x in domain && x != '.' && x != '-'
  {
    RemoveCharMembers(domain, '.', x);
    RemoveCharMembers(ReplaceChar(domain, '.', ""), '-', x);
  }

  /** `str.isalnum()`, given the per-character Unicode test: non-empty and every character alphanumeric. */
  predicate IsAlnum(s: string, alnum: char -> bool) {
    |s| > 0 && forall i :: 0 <= i < |s| ==> alnum(s[i])
  }

  /** `Company.clean` raises no ValidationError for this domain. */
  predicate CleanAccepts(domain: string, alnum: char -> bool) {
    domain == "" || !(' ' in domain || !IsAlnum(Stripped(domain), alnum))
  }

  /**
   * A non-empty domain passes `clean` exactly when it has no space, some
   * character other than '.' and '-', and every such character is alphanumeric.
   */
  lemma CleanAcceptsIff(domain: string, alnum: char -> bool)
    requires !alnum(' ')
    ensures CleanAccepts(domain, alnum) <==>
      domain == "" ||
      ((exists i :: 0 <= i < |domain| && domain[i] != '.' && domain[i] != '-') &&
       (forall i :: 0 <= i < |domain| ==> domain[i] == '.' || domain[i] == '-' || alnum(domain[i])))
  {
    var s := Stripped(domain);
    if exists i :: 0 <= i < |domain| && domain[i] != '.' && domain[i] != '-' {
      var i :| 0 <= i < |domain| && domain[i] != '.' && domain[i] != '-';
      StrippedMembers(domain, domain[i]);
      assert |s| > 0;
    } else if |s| > 0 {
      StrippedMembers(domain, s[0]);
      assert false;
    }
    if forall i :: 0 <= i < |domain| ==> domain[i] == '.' || domain[i] == '-' || alnum(domain[i]) {
      forall k | 0 <= k < |s| ensures alnum(s[k]) {
        StrippedMembers(domain, s[k]);
      }
    } else {
      var i :| 0 <= i < |domain| && !(domain[i] == '.' || domain[i] == '-' || alnum(domain[i]));
      StrippedMembers(domain, domain[i]);
      var k :| 0 <= k < |s| && s[k] == domain[i];
    }
  }

  /** A domain made only of dots is rejected: what is left after stripping is empty. */
  lemma DotsOnlyRejected(alnum: char -> bool)
    ensures !CleanAccepts(".", alnum)
  {
    assert Stripped(".") == "";
  }

  // ---------------------------------------------------------------------------
  // Labels

  /** `dict(choices).get(code, code)`: the last pair listed for `code` wins. */
  function Label(choices: seq<(string, string)>, code: string): (r: string)
    ensures (forall i :: 0 <= i < |choices| ==> choices[i].0 != code) ==> r == code
    decreases |choices|
  {
    if choices == [] then code
    else if choices[|choices| - 1].0 == code then choices[|choices| - 1].1
    else Label(choices[..|choices| - 1], code)
  }

  /** No code appears twice in a choice table. */
  predicate DistinctCodes(choices: seq<(string, string)>) {
    forall i, j :: 0 <= i < j < |choices| ==> choices[i].0 != choices[j].0
  }

  /** In a table without repeated codes, a listed code gets the label beside it. */
  lemma {:induction false} LabelOfListed(choices: seq<(string, string)>, i: nat)
    requires DistinctCodes(choices) && i < |choices|
    ensures Label(choices, choices[i].0) == choices[i].1
    decreases |choices|
  {
    if i != |choices| - 1 {
      var front := choices[..|choices| - 1];
      assert front[i] == choices[i];
      LabelOfListed(front, i);
    }
  }

  const RubroChoices: seq<(string, string)> := [
    ("agricultura", "Agricultura"), ("fruticultura", "Fruticultura"),
    ("horticultura", "Horticultura"), ("viticultura", "Viticultura"),
    ("ganaderia", "Ganadería"), ("avicultura", "Avicultura"),
    ("porcicultura", "Porcicultura"), ("acuicultura", "Acuicultura"),
    ("apicultura", "Apicultura"), ("otros", "Otros")
  ]

  const PaisChoices: seq<(string, string)> := [
    ("AR", "Argentina"), ("BR", "Brasil"), ("CL", "Chile"), ("CO", "Colombia"),
    ("EC", "Ecuador"), ("PE", "Perú"), ("UY", "Uruguay"), ("VE", "Venezuela"),
    ("MX", "México"), ("US", "Estados Unidos"), ("CA", "Canadá"), ("ES", "España"),
    ("FR", "Francia"), ("DE", "Alemania"), ("IT", "Italia"), ("NL", "Países Bajos"),
    ("GB", "Reino Unido"), ("AU", "Australia"), ("NZ", "Nueva Zelanda"), ("CN", "China"),
    ("JP", "Japón"), ("KR", "Corea del Sur"), ("IN", "India"), ("ZA", "Sudáfrica"),
    ("OT", "Otros")
  ]

  function PaisDisplay(c: Company): string {
    Label(PaisChoices, c.pais)
  }

  function RubroDisplay(c: Company): string {
    Label(RubroChoices, c.rubro)
  }

  /** The country label is the one listed for a known code, and the code itself otherwise. */
  lemma PaisDisplayKnown(c: Company, i: nat)
    requires i < |PaisChoices| && PaisChoices[i].0 == c.pais
    ensures PaisDisplay(c) == PaisChoices[i].1
  {
    PaisCodesDistinct();
    LabelOfListed(PaisChoices, i);
  }

  lemma PaisDisplayUnknown(c: Company)
    requires forall i :: 0 <= i < |PaisChoices| ==> PaisChoices[i].0 != c.pais
    ensures PaisDisplay(c) == c.pais
  {
  }

  lemma RubroDisplayKnown(c: Company, i: nat)
    requires i < |RubroChoices| && RubroChoices[i].0 == c.rubro
    ensures RubroDisplay(c) == RubroChoices[i].1
  {
    RubroCodesDistinct();
    LabelOfListed(RubroChoices, i);
  }

  lemma RubroDisplayUnknown(c: Company)
    requires forall i :: 0 <= i < |RubroChoices| ==> RubroChoices[i].0 != c.rubro
    ensures RubroDisplay(c) == c.rubro
  {
  }

  lemma PaisCodesDistinct()
    ensures DistinctCodes(PaisChoices)
  {
    forall i, j | 0 <= i < j < |PaisChoices| ensures PaisChoices[i].0 != PaisChoices[j].0 {
      var a, b := PaisChoices[i].0, PaisChoices[j].0;
      assert |a| == 2 && |b| == 2;
      assert a[0] != b[0] || a[1] != b[1];
    }
  }

  lemma RubroCodesDistinct()
    ensures DistinctCodes(RubroChoices)
  {
  }
}
