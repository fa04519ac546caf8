/** Hashes of a symmetrised structure built from its Wyckoff letters and spacegroup
    number, and the canonical tuple form of a letter counter. */
module SymmetryHash {
  import opened Wrappers
  import opened Seqs
  import opened Decimal
  import opened Sorting

  /** What the hash reads of a symmetrised structure: one Wyckoff letter per site, in
      site order, and the international spacegroup number. */
  datatype Symmetrized = Symmetrized(wyckoffLetters: seq<char>, spacegroup: nat)

  predicate NoDigit(s: string) {
    forall k :: 0 <= k < |s| ==> !IsDigit(s[k])
  }

  /** `h` ends with `str(n)`. */
  predicate EndsWithNumber(h: string, n: nat) {
    var d := DecimalString(n);
    |d| <= |h| && h[|h| - |d|..] == d
  }

  // ---------------------------------------------------------------------------------
  // Tight hash: the letters in site order, then the number

  function TightHash(st: Symmetrized): (r: string)
    ensures |r| == |st.wyckoffLetters| + |DecimalString(st.spacegroup)|
    ensures r[..|st.wyckoffLetters|] == st.wyckoffLetters
    ensures EndsWithNumber(r, st.spacegroup)
  {
    st.wyckoffLetters + DecimalString(st.spacegroup)
  }

  /** Start of the longest run of digits that ends the string. */
  function DigitSuffixStart(s: string): (k: nat)
    ensures k <= |s| && AllDigits(s[k..])
    ensures k > 0 ==> !IsDigit(s[k - 1])
    decreases |s|
  {
    if |s| == 0 || !IsDigit(s[|s| - 1]) then |s|
    else
      var k := DigitSuffixStart(s[..|s| - 1]);
      assert AllDigits(s[k..]) by {
        forall j | 0 <= j < |s| - k ensures IsDigit(s[k..][j]) {
          if j < |s| - 1 - k {
            assert s[k..][j] == s[..|s| - 1][k..][j];
          }
        }
      }
      k
  }

  /** Splits a tight hash into the letters and the trailing number. */
  function ReadTightHash(h: string): (r: Option<Symmetrized>)
    ensures r.None? <==> |h| == 0 || !IsDigit(h[|h| - 1])
  {
    var k := DigitSuffixStart(h);
    if k == |h| then None else Some(Symmetrized(h[..k], DigitsValue(h[k..])))
  }

  lemma {:induction false} DigitSuffixOfJoin(a: string, b: string)
    requires NoDigit(a) && AllDigits(b)
    ensures DigitSuffixStart(a + b) == |a|
    decreases |b|
  {
    if |b| > 0 {
      assert (a + b)[..|a + b| - 1] == a + b[..|b| - 1];
      DigitSuffixOfJoin(a, b[..|b| - 1]);
    } else {
      assert a + b == a;
    }
  }

  /** Wyckoff letters are letters, so the tight hash gives back both the letters and the
      spacegroup number. */
  lemma TightHashRoundTrip(st: Symmetrized)
    requires NoDigit(st.wyckoffLetters)
    ensures ReadTightHash(TightHash(st)) == Some(st)
  {
    var h := TightHash(st);
    var d := DecimalString(st.spacegroup);
    DigitSuffixOfJoin(st.wyckoffLetters, d);
    assert h[..|st.wyckoffLetters|] == st.wyckoffLetters;
    assert h[|st.wyckoffLetters|..] == d;
    DecimalRoundTrip(st.spacegroup);
  }

  /** Two structures share a tight hash only when letters and number both agree. */
  lemma TightHashInjective(a: Symmetrized, b: Symmetrized)
    requires NoDigit(a.wyckoffLetters) && NoDigit(b.wyckoffLetters)
    requires TightHash(a) == TightHash(b)
    ensures a == b
  {
    TightHashRoundTrip(a);
    TightHashRoundTrip(b);
  }

  // ---------------------------------------------------------------------------------
  // Loose hash: a digest of the set of letters, then the number

  /** `tuple(set(letters))` can be any listing of the distinct letters: the iteration
      order of a set of strings follows the string hash, which Python seeds afresh in
      every interpreter process. */
  predicate SetEnumeration(order: seq<char>, letters: seq<char>) {
    NoDuplicates(order) && forall c :: c in order <==> c in letters
  }

  /** The loose hash as written: `digest` stands for SHA-256 over the tuple's `repr`,
      encoded in base64, and `order` for the listing the set happened to produce. */
  function LooseHashAsWritten(st: Symmetrized, order: seq<char>, digest: seq<char> -> string): (r: string)
    requires SetEnumeration(order, st.wyckoffLetters)
    ensures EndsWithNumber(r, st.spacegroup)
  {
    digest(order) + DecimalString(st.spacegroup)
  }

  /** Two listings of the same letter set are both possible, and a digest that tells the
      listings apart gives two different loose hashes for one structure. */
  lemma LooseHashDependsOnSetOrder(digest: seq<char> -> string)
    requires digest("ab") != digest("ba")
    ensures SetEnumeration("ab", "ab") && SetEnumeration("ba", "ab")
    ensures LooseHashAsWritten(Symmetrized("ab", 1), "ab", digest)
         != LooseHashAsWritten(Symmetrized("ab", 1), "ba", digest)
  {
    var x := LooseHashAsWritten(Symmetrized("ab", 1), "ab", digest);
    var y := LooseHashAsWritten(Symmetrized("ab", 1), "ba", digest);
    assert x[..|digest("ab")|] == digest("ab");
    assert y[..|digest("ba")|] == digest("ba");
  }

  function CharLess(a: char, b: char): bool {
    a < b
  }

  /** The distinct letters in ascending order. */
  function SortedLetters(letters: seq<char>): (r: seq<char>)
    ensures SetEnumeration(r, letters) && SortedBy(r, CharLess)
  {
    var r := Sort(letters, CharLess);
    SortedHasNoDuplicates(r, CharLess);
    r
  }

  /** The loose hash with the set listed in sorted order before it is digested. */
  function LooseHash(st: Symmetrized, digest: seq<char> -> string): (r: string)
    ensures EndsWithNumber(r, st.spacegroup)
    ensures r == LooseHashAsWritten(st, SortedLetters(st.wyckoffLetters), digest)
  {
    digest(SortedLetters(st.wyckoffLetters)) + DecimalString(st.spacegroup)
  }

  /** The corrected loose hash ignores the order and the multiplicity of the letters:
      only the set of letters and the number matter. */
  lemma LooseHashDependsOnlyOnLetterSet(a: Symmetrized, b: Symmetrized, digest: seq<char> -> string)
    requires forall c :: c in a.wyckoffLetters <==> c in b.wyckoffLetters
    requires a.spacegroup == b.spacegroup
    ensures LooseHash(a, digest) == LooseHash(b, digest)
  {
    SortedUnique(SortedLetters(a.wyckoffLetters), SortedLetters(b.wyckoffLetters), CharLess);
  }

  /** Tight and loose hash of one structure end with the same number. */
  lemma HashesShareSuffix(st: Symmetrized, digest: seq<char> -> string)
    ensures var t := TightHash(st); var l := LooseHash(st, digest);
      var d := |DecimalString(st.spacegroup)|;
      d <= |t| && d <= |l| && t[|t| - d..] == l[|l| - d..]
  {
  }

  // ---------------------------------------------------------------------------------
  // `make_hashable`: a counter's items as a sorted tuple

  /** A counter's items: each key occurs once. */
  predicate DistinctKeys(items: seq<(string, int)>) {
    forall i, j :: 0 <= i < j < |items| ==> items[i].0 != items[j].0
  }

  /** Tuples with different keys compare by key. */
  function KeyLess(p: (string, int), q: (string, int)): bool {
    LexLess(p.0, q.0)
  }

  lemma KeyLessIsStrictOrder()
    ensures StrictOrder(KeyLess)
  {
    forall p: (string, int) ensures !KeyLess(p, p) {
      LexIrreflexive(p.0);
    }
    forall p: (string, int), q: (string, int), s: (string, int) | KeyLess(p, q) && KeyLess(q, s)
      ensures KeyLess(p, s)
    {
      LexTransitive(p.0, q.0, s.0);
    }
  }

  function MakeHashable(counter: seq<(string, int)>): (r: seq<(string, int)>)
    requires DistinctKeys(counter)
    ensures SortedBy(r, KeyLess)
    ensures |r| == |counter|
    ensures forall p :: p in r <==> p in counter
  {
    KeyLessIsStrictOrder();
    forall i, j | 0 <= i < |counter| && 0 <= j < |counter| && counter[i] != counter[j]
      ensures KeyLess(counter[i], counter[j]) || KeyLess(counter[j], counter[i])
    {
      LexTotal(counter[i].0, counter[j].0);
    }
    Sort(counter, KeyLess)
  }

  /** Counters with the same items give the same tuple, whatever their insertion order. */
  lemma MakeHashableCanonical(a: seq<(string, int)>, b: seq<(string, int)>)
    requires DistinctKeys(a) && DistinctKeys(b)
    requires forall p :: p in a <==> p in b
    ensures MakeHashable(a) == MakeHashable(b)
  {
    KeyLessIsStrictOrder();
    SortedUnique(MakeHashable(a), MakeHashable(b), KeyLess);
  }

  // ---------------------------------------------------------------------------------
  // A count-aware loose hash: `make_hashable(Counter(letters))` digested

  /** `Counter(letters)` with one-letter keys: each distinct letter, ascending, with the
      number of sites that carry it. */
  function LetterCounts(letters: seq<char>): (r: seq<(string, int)>)
    ensures DistinctKeys(r)
    ensures forall c :: c in letters <==> ([c], multiset(letters)[c]) in r
    ensures forall p :: p in r ==> |p.0| == 1 && p.0[0] in letters && p.1 == multiset(letters)[p.0[0]]
  {
    var o := SortedLetters(letters);
    var r := seq(|o|, k requires 0 <= k < |o| => ([o[k]], multiset(letters)[o[k]]));
    assert forall c :: c in letters ==> ([c], multiset(letters)[c]) in r by {
      forall c | c in letters ensures ([c], multiset(letters)[c]) in r {
        var k :| 0 <= k < |o| && o[k] == c;
        assert r[k] == ([c], multiset(letters)[c]);
      }
    }
    r
  }

  /** The loose hash over the letter counts, the reading the name `wyckoff_letter_counts`
      and the unused `make_hashable` suggest: `digest` stands for SHA-256 over the tuple's
      `repr`, encoded in base64. */
  function LooseHashCounted(st: Symmetrized, digest: seq<(string, int)> -> string): (r: string)
    ensures EndsWithNumber(r, st.spacegroup)
    ensures r[..|r| - |DecimalString(st.spacegroup)|] == digest(MakeHashable(LetterCounts(st.wyckoffLetters)))
  {
    digest(MakeHashable(LetterCounts(st.wyckoffLetters))) + DecimalString(st.spacegroup)
  }

  /** The count-aware hash ignores the order of the letters: structures whose sites carry
      the same letters the same number of times, in one spacegroup, share it. */
  lemma LooseHashCountedIgnoresOrder(a: Symmetrized, b: Symmetrized, digest: seq<(string, int)> -> string)
    requires multiset(a.wyckoffLetters) == multiset(b.wyckoffLetters)
    requires a.spacegroup == b.spacegroup
    ensures LooseHashCounted(a, digest) == LooseHashCounted(b, digest)
  {
    var la, lb := LetterCounts(a.wyckoffLetters), LetterCounts(b.wyckoffLetters);
    forall p ensures p in la <==> p in lb {
      if p in la {
        var c := p.0[0];
        assert p == ([c], multiset(a.wyckoffLetters)[c]);
        assert c in multiset(a.wyckoffLetters);
      }
      if p in lb {
        var c := p.0[0];
        assert p == ([c], multiset(b.wyckoffLetters)[c]);
        assert c in multiset(b.wyckoffLetters);
      }
    }
    MakeHashableCanonical(la, lb);
  }

  /** Unlike the set form, the counted form keeps the counts: equal digest inputs come
      only from letters with the same multiplicities. */
  lemma LetterCountsDetermineLetters(a: seq<char>, b: seq<char>)
    requires MakeHashable(LetterCounts(a)) == MakeHashable(LetterCounts(b))
    ensures multiset(a) == multiset(b)
  {
    var la, lb := LetterCounts(a), LetterCounts(b);
    forall c ensures multiset(a)[c] == multiset(b)[c] {
      if c in a {
        assert ([c], multiset(a)[c]) in la;
        assert ([c], multiset(a)[c]) in MakeHashable(la);
        assert ([c], multiset(a)[c]) in lb;
      }
      if c in b {
        assert ([c], multiset(b)[c]) in lb;
        assert ([c], multiset(b)[c]) in MakeHashable(lb);
        assert ([c], multiset(b)[c]) in la;
      }
    }
  }

  /** The set form cannot tell "ab" from "aab"; the counted form can. */
  lemma LooseHashCountedSeesMultiplicity(digest: seq<char> -> string)
    ensures LooseHash(Symmetrized("ab", 1), digest) == LooseHash(Symmetrized("aab", 1), digest)
    ensures MakeHashable(LetterCounts("ab")) != MakeHashable(LetterCounts("aab"))
  {
    LooseHashDependsOnlyOnLetterSet(Symmetrized("ab", 1), Symmetrized("aab", 1), digest);
    assert multiset("ab")['a'] == 1;
    assert multiset("aab")['a'] == 2;
    if MakeHashable(LetterCounts("ab")) == MakeHashable(LetterCounts("aab")) {
      LetterCountsDetermineLetters("ab", "aab");
    }
  }
}
