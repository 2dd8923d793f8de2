/**
  The text handling both services share: trimming, lower-casing, string order, and the
  trim / drop-blank / dedupe / sort routine that the program has twice (CleanTexts and CleanTags).
  Only ASCII white space and ASCII letters are modelled.
 */
module Text {
  import opened Ordering

  predicate IsSpace(c: char) {
    c == ' ' || '\t' <= c <= '\r'
  }

  function Trim(s: string): (r: string)
    ensures |r| <= |s|
    ensures r == "" || (!IsSpace(r[0]) && !IsSpace(r[|r| - 1]))
    ensures s != "" && !IsSpace(s[0]) && !IsSpace(s[|s| - 1]) ==> r == s
  {
    if s == "" then ""
    else if IsSpace(s[0]) then Trim(s[1..])
    else if IsSpace(s[|s| - 1]) then Trim(s[..|s| - 1])
    else s
  }

  /** Only white space trims to nothing. */
  lemma {:induction false} TrimBlank(s: string)
    ensures Trim(s) == "" <==> forall i :: 0 <= i < |s| ==> IsSpace(s[i])
  {
    if s == "" {
    } else if IsSpace(s[0]) {
      TrimBlank(s[1..]);
      assert forall i :: 0 < i < |s| ==> s[i] == s[1..][i - 1];
    } else if IsSpace(s[|s| - 1]) {
      TrimBlank(s[..|s| - 1]);
    }
  }

  /** The white space that is trimmed. */
  lemma SpaceChars(c: char)
    ensures IsSpace(c) <==> c in {' ', '\t', '\n', '\U{00000B}', '\U{00000C}', '\r'}
  {
  }

  ghost predicate PieceAt(text: string, part: string, i: nat) {
    i + |part| <= |text| && text[i..i + |part|] == part
  }

  /** The part is a piece of the text with nothing but white space around it. */
  ghost predicate TrimmedAt(text: string, part: string, i: nat) {
    && PieceAt(text, part, i)
    && forall k :: 0 <= k < i || i + |part| <= k < |text| ==> IsSpace(text[k])
  }

  lemma CutSooner(text: string, part: string, i: nat)
    requires text != "" && IsSpace(text[0]) && TrimmedAt(text[1..], part, i)
    ensures TrimmedAt(text, part, i + 1)
  {
    hide IsSpace;
    assert text[i + 1..i + 1 + |part|] == text[1..][i..i + |part|];
    assert forall k :: 0 < k < |text| ==> text[k] == text[1..][k - 1];
  }

  lemma CutLater(text: string, part: string, i: nat)
    requires text != "" && IsSpace(text[|text| - 1]) && TrimmedAt(text[..|text| - 1], part, i)
    ensures TrimmedAt(text, part, i)
  {
    hide IsSpace;
    assert text[i..i + |part|] == text[..|text| - 1][i..i + |part|];
    assert forall k :: 0 <= k < |text| - 1 ==> text[k] == text[..|text| - 1][k];
  }

  /** Trimming takes off the white space around a text, and no more: what is left neither begins nor ends with any. */
  lemma {:induction false} TrimMeaning(s: string) returns (i: nat)
    ensures TrimmedAt(s, Trim(s), i)
    ensures Trim(s) != "" ==> !IsSpace(Trim(s)[0]) && !IsSpace(Trim(s)[|Trim(s)| - 1])
  {
    hide TrimmedAt;
    if s == "" {
      i := 0;
      AllOf(s);
    } else if IsSpace(s[0]) {
      i := TrimMeaning(s[1..]);
      CutSooner(s, Trim(s[1..]), i);
      i := i + 1;
    } else if IsSpace(s[|s| - 1]) {
      i := TrimMeaning(s[..|s| - 1]);
      CutLater(s, Trim(s[..|s| - 1]), i);
    } else {
      i := 0;
      AllOf(s);
    }
  }

  lemma AllOf(s: string)
    ensures TrimmedAt(s, s, 0)
  {
    assert s[0..|s|] == s;
  }

  lemma TrimTwice(s: string)
    ensures Trim(Trim(s)) == Trim(s)
  {
  }

  function LowerChar(c: char): char {
    if 'A' <= c <= 'Z' then c - 'A' + 'a' else c
  }

  function Lower(s: string): (r: string)
    ensures |r| == |s| && forall i :: 0 <= i < |s| ==> r[i] == LowerChar(s[i])
  {
    seq(|s|, i requires 0 <= i < |s| => LowerChar(s[i]))
  }

  /** Every character of a trimmed text comes from the text. */
  lemma {:induction false} TrimWithin(s: string)
    ensures forall c :: c in Trim(s) ==> c in s
  {
    if s == "" {
    } else if IsSpace(s[0]) {
      TrimWithin(s[1..]);
    } else if IsSpace(s[|s| - 1]) {
      TrimWithin(s[..|s| - 1]);
    }
  }

  /** The way status and class names are read is a normal form: reading the result changes nothing. */
  function Fold(s: string): string {
    Trim(Lower(s))
  }

  /** Folding trims and lower-cases, in either order; lower-casing changes exactly the letters from A to Z. */
  lemma FoldMeaning(s: string)
    ensures Fold(s) == Lower(Trim(s))
    ensures forall c: char :: LowerChar(c) == if 'A' <= c <= 'Z' then c + 32 as char else c
  {
    LowerTrims(s);
  }

  lemma {:induction false} LowerTrims(s: string)
    ensures Trim(Lower(s)) == Lower(Trim(s))
  {
    hide IsSpace, LowerChar;
    LowerSpaces(s);
    if s == "" {
      assert Lower(s) == s;
    } else if IsSpace(s[0]) {
      LowerCut(s, 1, |s|);
      assert s[1..|s|] == s[1..] && Lower(s)[1..|s|] == Lower(s)[1..];
      LowerTrims(s[1..]);
    } else if IsSpace(s[|s| - 1]) {
      LowerCut(s, 0, |s| - 1);
      LowerTrims(s[..|s| - 1]);
    }
  }

  lemma LowerSpaces(s: string)
    ensures forall i :: 0 <= i < |s| ==> (IsSpace(Lower(s)[i]) <==> IsSpace(s[i]))
  {
  }

  lemma LowerCut(s: string, i: nat, j: nat)
    requires i <= j <= |s|
    ensures Lower(s)[i..j] == Lower(s[i..j])
  {
    hide LowerChar;
  }

  lemma FoldTwice(s: string)
    ensures Fold(Fold(s)) == Fold(s)
  {
    var r := Fold(s);
    TrimWithin(Lower(s));
    forall i | 0 <= i < |r| ensures LowerChar(r[i]) == r[i] {
      assert r[i] in Lower(s);
    }
    assert Lower(r) == r;
    TrimTwice(Lower(s));
  }

  /** strings.Compare(a, b) < 0 */
  predicate Before(a: string, b: string) {
    b != "" && (a == "" || a[0] < b[0] || (a[0] == b[0] && Before(a[1..], b[1..])))
  }

  /** The texts agree up to position k, where a ends or has the smaller character. */
  ghost predicate DiffersAt(a: string, b: string, k: nat) {
    k <= |a| && k < |b| && a[..k] == b[..k] && (k == |a| || a[k] < b[k])
  }

  /** Texts are compared character by character, and a proper prefix comes first. */
  lemma {:induction false} BeforeMeaning(a: string, b: string)
    ensures Before(a, b) <==> exists k: nat :: DiffersAt(a, b, k)
  {
    if a != "" && b != "" && a[0] == b[0] {
      BeforeMeaning(a[1..], b[1..]);
      if Before(a, b) {
        var k: nat :| DiffersAt(a[1..], b[1..], k);
        assert a[..k + 1] == [a[0]] + a[1..][..k] && b[..k + 1] == [b[0]] + b[1..][..k];
        assert DiffersAt(a, b, k + 1);
      }
      if k: nat :| DiffersAt(a, b, k) {
        FirstAgrees(a, b, k);
      }
    } else if Before(a, b) {
      assert DiffersAt(a, b, 0);
    } else {
      forall k: nat ensures !DiffersAt(a, b, k) {
        if DiffersAt(a, b, k) && 0 < k {
          FirstAgrees(a, b, k);
        }
      }
    }
  }

  lemma FirstAgrees(a: string, b: string, k: nat)
    requires DiffersAt(a, b, k) && 0 < k
    ensures a != "" && b != "" && a[0] == b[0] && DiffersAt(a[1..], b[1..], k - 1)
  {
    assert a[0] == a[..k][0] && b[0] == b[..k][0];
    assert a[1..][..k - 1] == a[..k][1..] && b[1..][..k - 1] == b[..k][1..];
  }

  lemma {:induction false} BeforeTransitive(a: string, b: string, c: string)
    requires Before(a, b) && Before(b, c)
    ensures Before(a, c)
  {
    if a != "" && a[0] == b[0] == c[0] {
      BeforeTransitive(a[1..], b[1..], c[1..]);
    }
  }

  lemma {:induction false} BeforeTotal(a: string, b: string)
    ensures !Before(a, a)
    ensures a != b ==> Before(a, b) || Before(b, a)
    ensures !(Before(a, b) && Before(b, a))
  {
    if a != "" {
      BeforeTotal(a[1..], if b == "" then b else b[1..]);
      if b != "" && a[0] == b[0] {
        assert a == [a[0]] + a[1..] && b == [b[0]] + b[1..];
      }
    }
  }

  lemma BeforeTotalOn(s: set<string>)
    ensures TotalOn(Before, s)
  {
    forall a, b ensures !Before(a, a) && (a != b ==> Before(a, b) || Before(b, a)) {
      BeforeTotal(a, b);
    }
    forall a, b, c | Before(a, b) && Before(b, c) ensures Before(a, c) {
      BeforeTransitive(a, b, c);
    }
  }

  /** The distinct non-blank trimmed texts, in order of first appearance. */
  function DistinctTexts(values: seq<string>): (r: seq<string>)
    ensures Distinct(r)
    ensures forall t :: t in r <==> t != "" && exists v :: v in values && Trim(v) == t
  {
    if values == [] then []
    else
      var front, last := values[..|values| - 1], values[|values| - 1];
      assert forall v :: v in values <==> v in front || v == last;
      var rest := DistinctTexts(front);
      var t := Trim(last);
      if t == "" || t in rest then rest else rest + [t]
  }

  /** What cleaning a list of texts gives. */
  function Clean(values: seq<string>): seq<string> {
    SortBy(Before, DistinctTexts(values))
  }

  /** The cleaned list is in strict order, and holds exactly the non-blank trimmed texts. */
  lemma CleanMeaning(values: seq<string>)
    ensures Sorted(Before, Clean(values)) && Distinct(Clean(values))
    ensures forall t :: t in Clean(values) <==> t != "" && exists v :: v in values && Trim(v) == t
  {
    var d := DistinctTexts(values);
    BeforeTotalOn(Elems(d));
    SortBySorts(Before, d);
    SortedDistinct(Clean(values));
  }

  lemma SortedDistinct(s: seq<string>)
    requires Sorted(Before, s)
    ensures Distinct(s)
  {
    forall i, j | 0 <= i < j < |s| ensures s[i] != s[j] {
      BeforeTotal(s[i], s[j]);
    }
  }

  /** Cleaning what is already clean changes nothing. */
  lemma CleanTwice(values: seq<string>)
    ensures Clean(Clean(values)) == Clean(values)
  {
    CleanMeaning(values);
    CleanMeaning(Clean(values));
    var c := Clean(values);
    forall t | t in c ensures Trim(t) == t {
      var v :| v in values && Trim(v) == t;
      TrimTwice(v);
    }
    BeforeTotalOn(Elems(Clean(c)));
    SortedUnique(Before, Clean(c), c);
  }

  /** Only the set of trimmed texts matters. */
  lemma CleanDependsOnTexts(a: seq<string>, b: seq<string>)
    requires forall t :: t in Clean(a) <==> t in Clean(b)
    ensures Clean(a) == Clean(b)
  {
    CleanMeaning(a);
    CleanMeaning(b);
    BeforeTotalOn(Elems(Clean(a)));
    SortedUnique(Before, Clean(a), Clean(b));
  }

  lemma NoTexts()
    ensures DistinctTexts([]) == []
  {
  }

  lemma DistinctTextsMore(values: seq<string>, i: nat)
    requires i < |values|
    ensures var front, t := DistinctTexts(values[..i]), Trim(values[i]);
      DistinctTexts(values[..i + 1]) == if t == "" || t in front then front else front + [t]
  {
    hide Trim;
    assert values[..i + 1][..i] == values[..i];
  }

  method CleanTexts(values: seq<string>) returns (cleaned: seq<string>)
    ensures cleaned == Clean(values)
  {
    hide Trim, SortBy, DistinctTexts, Elems;
    var seen: set<string> := {};
    cleaned := [];
    NoTexts();
    ElemsEmpty<string>();
    assert values[..0] == [];
    for i := 0 to |values|
      invariant cleaned == DistinctTexts(values[..i])
      invariant seen == Elems(cleaned)
    {
      DistinctTextsMore(values, i);
      ElemsMore(cleaned, Trim(values[i]));
      var trimmed := Trim(values[i]);
      if trimmed != "" && trimmed !in seen {
        seen := seen + {trimmed};
        cleaned := cleaned + [trimmed];
      }
    }
    assert values[..|values|] == values;
    cleaned := SortBy(Before, cleaned);
  }

  // ----- ids -----

  /** validateRecordID */
  predicate UsableId(id: string): (ok: bool)
    ensures ok ==> Trim(id) != ""
  {
    var t := Trim(id);
    && t != ""
    && !(exists i :: 0 <= i < |t| - 1 && t[i] == '.' && t[i + 1] == '.')
    && '/' !in t && '\\' !in t
  }

  ghost predicate Holds(text: string, part: string) {
    exists i: nat :: PieceAt(text, part, i)
  }

  lemma HoldsChar(text: string, c: char)
    ensures Holds(text, [c]) <==> c in text
  {
    if c in text {
      var i :| 0 <= i < |text| && text[i] == c;
      assert PieceAt(text, [c], i);
    }
    if i: nat :| PieceAt(text, [c], i) {
      assert text[i..i + 1][0] == text[i];
    }
  }

  lemma HoldsPair(text: string, c: char, d: char)
    ensures Holds(text, [c, d]) <==> exists i :: 0 <= i < |text| - 1 && text[i] == c && text[i + 1] == d
  {
    if i :| 0 <= i < |text| - 1 && text[i] == c && text[i + 1] == d {
      assert text[i..i + 2] == [c, d];
      assert PieceAt(text, [c, d], i);
    }
    if i: nat :| PieceAt(text, [c, d], i) {
      assert text[i..i + 2][0] == text[i] && text[i..i + 2][1] == text[i + 1];
    }
  }

  /** An id is usable as a file name when its trimmed text is not blank and holds no separator and no double dot. */
  lemma UsableIdMeaning(id: string)
    ensures UsableId(id) <==>
      var t := Trim(id); t != "" && !Holds(t, "/") && !Holds(t, "\\") && !Holds(t, "..")
  {
    hide Trim, Holds;
    HoldsChar(Trim(id), '/');
    HoldsChar(Trim(id), '\\');
    HoldsPair(Trim(id), '.', '.');
  }

  /** The shape of the ids the service generates: usable as file names, and with no outer white space. */
  predicate GeneratedId(id: string) {
    UsableId(id) && Trim(id) == id
  }

  /** Some id that the service could generate is in use: the only way a create of something acceptable can fail. */
  ghost predicate IdTaken(used: set<string>) {
    exists id :: id in used && GeneratedId(id)
  }
}
