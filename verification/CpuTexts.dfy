/** Exactly which texts the cpulist parser accepts, by a grammar. */
module CpuTexts {
  import opened Basics
  import opened Decimal
  import opened CpuList

  // The grammar: a text is one list, or two with a comma between them; a list is a
  // numeral or two numerals with a hyphen between them, which anything may follow
  // behind a second hyphen, with white space around it; and a numeral is a number
  // below 2^31 in decimal digits, with any zeros in front of them and one plus sign
  // at most.

  // ---------- numerals ----------

  function Zeros(k: nat): (z: string)
    ensures |z| == k && AllDigits(z)
  {
    if k == 0 then [] else Zeros(k - 1) + ['0']
  }

  function NumeralText(plus: bool, zeros: nat, n: nat): string {
    (if plus then "+" else "") + (Zeros(zeros) + Print(n))
  }

  /** The text reads as the number `n`, which has 31 bits. */
  ghost predicate Numeral(t: string, n: nat) {
    n < 0x8000_0000 && exists plus, zeros :: t == NumeralText(plus, zeros, n)
  }

  lemma {:induction false} ValueOfZeros(k: nat)
    ensures Value(Zeros(k)) == 0
  {
    if k > 0 {
      assert Zeros(k)[..k - 1] == Zeros(k - 1);
      ValueOfZeros(k - 1);
    }
  }

  lemma {:induction false} ValueWithZeros(k: nat, n: nat)
    ensures AllDigits(Zeros(k) + Print(n)) && Value(Zeros(k) + Print(n)) == n
  {
    var s := Zeros(k) + Print(n);
    if n < 10 {
      assert s[..|s| - 1] == Zeros(k);
      ValueOfZeros(k);
    } else {
      assert s[..|s| - 1] == Zeros(k) + Print(n / 10);
      ValueWithZeros(k, n / 10);
    }
  }

  /** Every string of digits is a printed number behind zeros. */
  lemma {:induction false} DigitsArePrinted(d: string) returns (k: nat)
    requires AllDigits(d) && d != []
    ensures d == Zeros(k) + Print(Value(d))
  {
    var front, last := d[..|d| - 1], d[|d| - 1];
    assert d == front + [last];
    if front == [] {
      k := 0;
    } else {
      k := DigitsArePrinted(front);
      if Value(front) == 0 {
        assert Print(0) == ['0'];
        k := k + 1;
        assert front == Zeros(k) && Value(d) == Value([last]);
      }
    }
  }

  /** `strconv.ParseInt` on a text without a minus sign. */
  lemma {:induction false} ParseIntIff(t: string, n: nat)
    requires '-' !in t
    ensures ParseInt32(t) == Some(n) <==> Numeral(t, n)
  {
    if ParseInt32(t) == Some(n) {
      var plus := t[0] == '+';
      var digits := if plus then t[1..] else t;
      assert t == (if plus then "+" else "") + digits;
      var k := DigitsArePrinted(digits);
      assert t == NumeralText(plus, k, n);
    }
    if Numeral(t, n) {
      var plus, k :| t == NumeralText(plus, k, n);
      NumeralParses(plus, k, n);
    }
  }

  lemma DigitsParse(t: string, d: string, plus: bool)
    requires AllDigits(d) && d != [] && Value(d) < 0x8000_0000
    requires if plus then t != [] && t[0] == '+' && t[1..] == d else t == d
    ensures ParseInt32(t) == Some(Value(d))
  {
    assert IsDigit(d[0]);
  }

  lemma NumeralParses(plus: bool, k: nat, n: nat)
    requires n < 0x8000_0000
    ensures ParseInt32(NumeralText(plus, k, n)) == Some(n)
  {
    ValueWithZeros(k, n);
    DigitsParse(NumeralText(plus, k, n), Zeros(k) + Print(n), plus);
  }

  /** A numeral has digits and plus signs only. */
  lemma NumeralCharacters(t: string, n: nat)
    requires Numeral(t, n)
    ensures t != [] && forall c :: c in t ==> IsDigit(c) || c == '+'
  {
    var plus, k :| t == NumeralText(plus, k, n);
  }

  // ---------- white space ----------

  predicate Trimmed(t: string) {
    t != [] ==> !IsSpace(t[0]) && !IsSpace(t[|t| - 1])
  }

  lemma {:induction false} TrimLeftParts(s: string) returns (w: string)
    ensures s == w + TrimLeft(s) && AllSpace(w)
    ensures TrimLeft(s) != [] ==> !IsSpace(TrimLeft(s)[0])
  {
    w := [];
    if s != [] && IsSpace(s[0]) {
      w := TrimLeftParts(s[1..]);
      w := [s[0]] + w;
    }
  }

  lemma {:induction false} TrimRightParts(s: string) returns (w: string)
    ensures s == TrimRight(s) + w && AllSpace(w)
    ensures TrimRight(s) != [] ==> !IsSpace(TrimRight(s)[|TrimRight(s)| - 1])
  {
    w := [];
    if s != [] && IsSpace(s[|s| - 1]) {
      w := TrimRightParts(s[..|s| - 1]);
      w := w + [s[|s| - 1]];
    }
  }

  /** `strings.TrimSpace` takes white space off both ends, and all of it. */
  lemma {:induction false} TrimParts(s: string) returns (w1: string, w2: string)
    ensures s == w1 + TrimSpace(s) + w2 && AllSpace(w1) && AllSpace(w2) && Trimmed(TrimSpace(s))
  {
    w1 := TrimLeftParts(s);
    w2 := TrimRightParts(TrimLeft(s));
    assert TrimSpace(s) != [] ==> TrimSpace(s)[0] == TrimLeft(s)[0];
  }

  // ---------- lists ----------

  /** Two numerals with a hyphen between them, and possibly more behind another hyphen. */
  predicate IsRange(t: string, x: string, y: string, rest: string) {
    t == x + ['-'] + (y + rest) && (rest != [] ==> rest[0] == '-')
  }

  ghost predicate Bare(t: string, a: nat, b: nat) {
    || (a == b && Numeral(t, a))
    || exists x, y, rest :: IsRange(t, x, y, rest) && Numeral(x, a) && Numeral(y, b)
  }

  /** The text is the list of the ids from `a` to `b`. */
  ghost predicate Names(s: string, a: nat, b: nat) {
    exists w1, t, w2 :: AllSpace(w1) && AllSpace(w2) && Trimmed(t) && Bare(t, a, b) && s == w1 + t + w2
  }

  ghost predicate Readable(s: string) { exists a: nat, b: nat :: Names(s, a, b) }

  /** How many ids there are from `a` to `b`. */
  function Length(a: nat, b: nat): nat { if a <= b then b - a + 1 else 0 }

  /** The first piece of a split, and the text behind it. */
  lemma {:induction false} SplitHead(s: string, sep: char) returns (rest: string)
    requires |Split(s, sep)| >= 2
    ensures s == Split(s, sep)[0] + [sep] + rest && Split(s, sep)[1..] == Split(rest, sep)
  {
    if s[0] == sep {
      rest := s[1..];
    } else {
      rest := SplitHead(s[1..], sep);
      assert s == [s[0]] + s[1..];
    }
  }

  /** The hyphens of a bare text. */
  lemma {:induction false} BareSplits(t: string, a: nat, b: nat)
    requires Bare(t, a, b)
    ensures t != []
    ensures var num := Split(t, '-');
            if |num| < 2 then a == b && Numeral(t, a) else Numeral(num[0], a) && Numeral(num[1], b)
  {
    if a == b && Numeral(t, a) {
      NumeralCharacters(t, a);
      SplitOnAbsent(t, '-');
    } else {
      var x, y, rest :| IsRange(t, x, y, rest) && Numeral(x, a) && Numeral(y, b);
      NumeralCharacters(x, a);
      NumeralCharacters(y, b);
      SplitAt(x, '-', y + rest);
      if rest == [] {
        assert y + rest == y;
        SplitOnAbsent(y, '-');
      } else {
        assert y + rest == y + ['-'] + rest[1..];
        SplitAt(y, '-', rest[1..]);
      }
    }
  }

  lemma {:induction false} SplitIsBare(t: string, a: nat, b: nat)
    requires var num := Split(t, '-');
             if |num| < 2 then a == b && Numeral(t, a) else Numeral(num[0], a) && Numeral(num[1], b)
    ensures Bare(t, a, b)
  {
    var num := Split(t, '-');
    if |num| >= 2 {
      var tail := SplitHead(t, '-');
      assert num[1] == Split(tail, '-')[0];
      var rest := [];
      if |Split(tail, '-')| >= 2 {
        rest := SplitHead(tail, '-');
        rest := ['-'] + rest;
        assert tail == num[1] + rest;
      } else {
        SplitOnAbsent(tail, '-');
        assert tail == num[1] + rest;
      }
      assert IsRange(t, num[0], num[1], rest);
    }
  }

  /** The two bounds that the parser finds are those that the text names. */
  lemma {:induction false} BoundsIff(s: string, a: nat, b: nat)
    ensures CoreBounds(s) == Some((a, b)) <==> Names(s, a, b)
  {
    if CoreBounds(s) == Some((a, b)) {
      BoundsAreNamed(s, a, b);
    }
    if Names(s, a, b) {
      var w1, t, w2 :| AllSpace(w1) && AllSpace(w2) && Trimmed(t) && Bare(t, a, b) && s == w1 + t + w2;
      BareSplits(t, a, b);
      TrimPadded(w1, t, w2);
      PiecesParse(t, a, b);
    }
  }

  /** What the parser makes of a trimmed text. */
  lemma {:induction false} PiecesParse(t: string, a: nat, b: nat)
    ensures var num := Split(t, '-');
            if |num| < 2 then ParseInt32(t) == Some(a) <==> Numeral(t, a)
            else (ParseInt32(num[0]) == Some(a) <==> Numeral(num[0], a)) && (ParseInt32(num[1]) == Some(b) <==> Numeral(num[1], b))
  {
    var num := Split(t, '-');
    if |num| < 2 {
      SplitOnAbsent(t, '-');
      ParseIntIff(t, a);
    } else {
      PiecesLackSeparator(t, '-', 0);
      PiecesLackSeparator(t, '-', 1);
      ParseIntIff(num[0], a);
      ParseIntIff(num[1], b);
    }
  }

  lemma {:induction false} BoundsAreNamed(s: string, a: nat, b: nat)
    requires CoreBounds(s) == Some((a, b))
    ensures Names(s, a, b)
  {
    var w1, w2 := TrimParts(s);
    var t := TrimSpace(s);
    PiecesParse(t, a, b);
    SplitIsBare(t, a, b);
  }

  /** A list is extracted exactly from a text that names one, and it is that list. */
  lemma {:induction false} ExtractedIff(s: string)
    ensures ExtractCoreID(s).Some? <==> Readable(s)
    ensures forall a: nat, b: nat :: Names(s, a, b) ==>
              var r := ExtractCoreID(s); r.Some? && |r.value| == Length(a, b) && CountsFrom(r.value, a)
  {
    var bounds := CoreBounds(s);
    BoundsAreNatural(s);
    if bounds.Some? {
      BoundsIff(s, bounds.value.0, bounds.value.1);
    }
    forall a: nat, b: nat | Names(s, a, b)
      ensures var r := ExtractCoreID(s); r.Some? && |r.value| == Length(a, b) && CountsFrom(r.value, a)
    {
      BoundsIff(s, a, b);
      RangeCounts(a, b);
    }
  }

  // ---------- texts ----------

  /** Without a comma: accepted exactly if it is a list. */
  lemma {:induction false} OneListText(s: string)
    requires ',' !in s
    ensures !Readable(s) ==> ParseNodeList(s) == Err(BadNumber)
    ensures forall a: nat, b: nat :: Names(s, a, b) ==>
              var r := ParseNodeList(s); r.Ok? && |r.value.pairs| == Length(a, b) && NodeCounts(r.value, false, a, 0)
  {
    SplitOnAbsent(s, ',');
    ExtractedIff(s);
    forall a: nat, b: nat | Names(s, a, b) ensures NodeCounts(OneList(ExtractCoreID(s).value), false, a, 0) {
      OneListCounts(ExtractCoreID(s).value, a);
    }
  }

  lemma {:induction false} PairIsParsed(l: string, r: string)
    requires ',' !in l && ',' !in r
    ensures ParseNodeList(l + [','] + r) == TwoNodes(ExtractCoreID(l), ExtractCoreID(r))
  {
    SplitAt(l, ',', r);
    SplitOnAbsent(r, ',');
    assert [l] + [r] == [l, r];
  }

  /** The result for the lists from `a` to `b` and from `c` to `d`. */
  ghost predicate IsPairNode(v: Result<NodeValue>, a: nat, b: nat, c: nat, d: nat) {
    if Length(a, b) != Length(c, d) then v == Err(InvalidCpuList)
    else v.Ok? && |v.value.pairs| == Length(a, b) && NodeCounts(v.value, true, a, c)
  }

  lemma {:induction false} NamedPairIsNode(l: string, r: string, a: nat, b: nat, c: nat, d: nat)
    requires Names(l, a, b) && Names(r, c, d)
    ensures IsPairNode(TwoNodes(ExtractCoreID(l), ExtractCoreID(r)), a, b, c, d)
  {
    ExtractedIff(l);
    ExtractedIff(r);
    if Length(a, b) == Length(c, d) {
      TwoListsCount(ExtractCoreID(l).value, ExtractCoreID(r).value, a, c);
    }
  }

  /** With one comma: accepted exactly if both parts are lists, of the same length. */
  lemma {:induction false} TwoListText(l: string, r: string)
    requires ',' !in l && ',' !in r
    ensures !Readable(l) || !Readable(r) ==> ParseNodeList(l + [','] + r) == Err(BadNumber)
    ensures forall a: nat, b: nat, c: nat, d: nat {:trigger Names(l, a, b), Names(r, c, d)} ::
              Names(l, a, b) && Names(r, c, d) ==> IsPairNode(ParseNodeList(l + [','] + r), a, b, c, d)
  {
    PairIsParsed(l, r);
    ExtractedIff(l);
    ExtractedIff(r);
    forall a: nat, b: nat, c: nat, d: nat | Names(l, a, b) && Names(r, c, d)
      ensures IsPairNode(ParseNodeList(l + [','] + r), a, b, c, d)
    {
      NamedPairIsNode(l, r, a, b, c, d);
    }
  }

  predicate HasTwoCommas(s: string) {
    exists i, j | 0 <= i < j < |s| :: s[i] == ',' && s[j] == ','
  }

  /** Two commas or more: rejected, whatever is between them. */
  lemma {:induction false} MoreListText(s: string)
    ensures |Split(s, ',')| >= 3 <==> HasTwoCommas(s)
    ensures HasTwoCommas(s) <==> ParseNodeList(s) == Err(InvalidNumaTopology)
  {
    SplitOnAbsent(s, ',');
    if |Split(s, ',')| >= 2 {
      var first := Split(s, ',')[0];
      var rest := SplitHead(s, ',');
      PiecesLackSeparator(s, ',', 0);
      SplitOnAbsent(rest, ',');
      CommasBehind(first, rest);
      assert s == first + [','] + rest;
    }
  }

  lemma CommasBehind(first: string, rest: string)
    requires ',' !in first
    ensures HasTwoCommas(first + [','] + rest) <==> ',' in rest
  {
    var s, n := first + [','] + rest, |first|;
    if ',' in rest {
      var k :| 0 <= k < |rest| && rest[k] == ',';
      assert s[n] == ',' && s[n + 1 + k] == ',';
    }
    if HasTwoCommas(s) {
      var i, j :| 0 <= i < j < |s| && s[i] == ',' && s[j] == ',';
      assert i >= n;
      assert rest[j - n - 1] == ',';
    }
  }

  /** The text is two readable lists of one length. */
  ghost predicate TwoReadable(s: string, l: string, r: string) {
    && s == l + [','] + r && ',' !in l && ',' !in r
    && exists a: nat, b: nat, c: nat, d: nat :: Names(l, a, b) && Names(r, c, d) && Length(a, b) == Length(c, d)
  }

  lemma {:induction false} TwoReadableIsAccepted(s: string, l: string, r: string)
    requires TwoReadable(s, l, r)
    ensures ParseNodeList(s).Ok?
  {
    TwoListText(l, r);
  }

  lemma {:induction false} OneComma(s: string) returns (l: string, r: string)
    requires |Split(s, ',')| == 2
    ensures s == l + [','] + r && ',' !in l && ',' !in r
  {
    l := Split(s, ',')[0];
    r := SplitHead(s, ',');
    PiecesLackSeparator(s, ',', 0);
    SplitOnAbsent(r, ',');
  }

  lemma {:induction false} AcceptedPartsAreLists(l: string, r: string)
    requires ',' !in l && ',' !in r && ParseNodeList(l + [','] + r).Ok?
    ensures exists a: nat, b: nat, c: nat, d: nat :: Names(l, a, b) && Names(r, c, d) && Length(a, b) == Length(c, d)
  {
    TwoListText(l, r);
    var a: nat, b: nat :| Names(l, a, b);
    var c: nat, d: nat :| Names(r, c, d);
    assert Length(a, b) == Length(c, d);
  }

  /** Exactly which texts are accepted. */
  lemma {:induction false} AcceptedIff(s: string)
    ensures ParseNodeList(s).Ok? <==> (',' !in s && Readable(s)) || exists l, r :: TwoReadable(s, l, r)
  {
    if ',' !in s {
      OneListText(s);
    } else if ParseNodeList(s).Ok? {
      SplitOnAbsent(s, ',');
      var l, r := OneComma(s);
      AcceptedPartsAreLists(l, r);
      assert TwoReadable(s, l, r);
    }
    forall l, r | TwoReadable(s, l, r) ensures ParseNodeList(s).Ok? {
      TwoReadableIsAccepted(s, l, r);
    }
  }

  // ---------- what is readable ----------

  lemma PrintIsBare(n: nat)
    requires n < 0x8000_0000
    ensures Bare(Print(n), n, n) && Trimmed(Print(n))
  {
    assert Zeros(0) + Print(n) == Print(n);
    assert "" + Print(n) == Print(n);
    assert Print(n) == NumeralText(false, 0, n);
    assert IsDigit(Print(n)[0]) && IsDigit(Print(n)[|Print(n)| - 1]);
  }

  /** A printed number, with white space around it, is the list of that one id. */
  lemma {:induction false} NumberIsNamed(w1: string, n: nat, w2: string)
    requires AllSpace(w1) && AllSpace(w2) && n < 0x8000_0000
    ensures var s := w1 + Print(n) + w2; Names(s, n, n) && ',' !in s && ExtractCoreID(s) == Some([n])
  {
    var s := w1 + Print(n) + w2;
    PrintIsBare(n);
    assert Names(s, n, n);
    ExtractedIff(s);
    NoCommas(w1, Print(n), w2);
    assert ExtractCoreID(s).value == [n];
  }

  lemma NoCommas(w1: string, t: string, w2: string)
    requires AllSpace(w1) && AllSpace(w2) && AllDigits(t)
    ensures ',' !in w1 + t + w2
  {
  }

  /** A printed range names its ids. */
  lemma {:induction false} RangeIsNamed(w1: string, a: nat, b: nat, w2: string)
    requires AllSpace(w1) && AllSpace(w2) && a < 0x8000_0000 && b < 0x8000_0000
    ensures Names(RangeText(w1, a, b, w2), a, b) && ',' !in RangeText(w1, a, b, w2)
  {
    RangeTextParses(w1, a, b, w2);
    RangeTextBounds(w1, a, b, w2);
    BoundsIff(RangeText(w1, a, b, w2), a, b);
  }

  /** A printed number in either place of a pair is one id: the other list has to have
      one too. */
  lemma {:induction false} NumberInPair(n: nat, a: nat, b: nat, w: seq<string>)
    requires n < 0x8000_0000 && a < 0x8000_0000 && b < 0x8000_0000
    requires |w| == 4 && forall i :: 0 <= i < 4 ==> AllSpace(w[i])
    ensures var number, range := w[0] + Print(n) + w[1], RangeText(w[2], a, b, w[3]);
            var first, second := ParseNodeList(number + [','] + range), ParseNodeList(range + [','] + number);
            if a != b then first == Err(InvalidCpuList) && second == Err(InvalidCpuList)
            else && first.Ok? && |first.value.pairs| == 1 && NodeCounts(first.value, true, n, a)
                 && second.Ok? && |second.value.pairs| == 1 && NodeCounts(second.value, true, a, n)
  {
    var number, range := w[0] + Print(n) + w[1], RangeText(w[2], a, b, w[3]);
    NumberIsNamed(w[0], n, w[1]);
    RangeIsNamed(w[2], a, b, w[3]);
    TwoListText(number, range);
    TwoListText(range, number);
    assert Length(n, n) == 1 && (Length(a, b) == 1 <==> a == b);
  }

  /** White space alone, and nothing at all, is no list. */
  lemma {:induction false} SpaceIsUnreadable(w: string)
    requires AllSpace(w)
    ensures !Readable(w)
  {
    assert w == w + [];
    TrimLeftPadded(w, []);
    assert TrimSpace(w) == [];
    ExtractedIff(w);
  }
}
