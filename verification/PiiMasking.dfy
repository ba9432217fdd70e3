/**
 * The masking of Korean personal data (security/pii.py): three chained
 * left-to-right substitutions, for resident numbers, account numbers and
 * mobile phone numbers.
 *
 * The decimal digit class of a regular expression contains more than the
 * ASCII digits, so the class is a parameter: every result below holds for
 * any class that contains the ASCII digits and neither '-' nor '*'.
 */
module PiiMasking {

  type DigitClass = d: char -> bool |
    (forall c :: '0' <= c <= '9' ==> d(c)) && !d('-') && !d('*')
    witness (c => '0' <= c <= '9')

  predicate Digits(d: DigitClass, s: string, i: nat, n: nat) {
    i + n <= |s| && forall k :: i <= k < i + n ==> d(s[k])
  }

  // ---------------------------------------------------------------------------
  // The two fixed-length patterns: resident and account numbers
  // ---------------------------------------------------------------------------

  datatype Pattern = Resident | Account {

    /** The length of a match. */
    function Len(): nat { if Resident? then 14 else 12 }

    /** How many leading characters of a match the replacement keeps; the rest become stars. */
    function Kept(): nat { if Resident? then 8 else 7 }

    predicate At(d: DigitClass, s: string, i: nat) {
      && i + Len() <= |s|
      && match this
         case Resident =>
           && Digits(d, s, i, 6)
           && s[i + 6] == '-'
           && '1' <= s[i + 7] <= '4'
           && Digits(d, s, i + 8, 6)
         case Account =>
           && Digits(d, s, i, 3)
           && s[i + 3] == '-'
           && Digits(d, s, i + 4, 2)
           && s[i + 6] == '-'
           && Digits(d, s, i + 7, 5)
    }

    /** The leftmost, non-overlapping substitution in s from position i on. */
    function Mask(d: DigitClass, s: string, i: nat): string
      requires i <= |s|
      decreases |s| - i
    {
      if i == |s| then ""
      else if At(d, s, i) then s[i..i + Kept()] + seq(Len() - Kept(), _ => '*') + Mask(d, s, i + Len())
      else [s[i]] + Mask(d, s, i + 1)
    }
  }

  predicate StarFree(t: string, a: nat, n: nat) {
    a + n <= |t| && forall k :: a <= k < a + n ==> t[k] != '*'
  }

  lemma DropStarFree(t: string, c: nat, rest: string, a: nat, n: nat)
    requires c <= |t| && t[c..] == rest && c <= a && StarFree(t, a, n)
    ensures StarFree(rest, a - c, n) && rest[a - c..a - c + n] == t[a..a + n]
  {
    forall k | a - c <= k < a - c + n ensures rest[k] != '*' { assert rest[k] == t[c..][k] == t[k + c]; }
  }

  /** How far one step of the substitution moves. */
  function Step(f: Pattern, d: DigitClass, s: string, i: nat): (n: nat)
    ensures 1 <= n
  {
    if f.At(d, s, i) then f.Len() else 1
  }

  /** One step of the substitution. */
  lemma MaskStep(f: Pattern, d: DigitClass, s: string, i: nat)
    requires i < |s|
    ensures var t, n := f.Mask(d, s, i), Step(f, d, s, i);
            && i + n <= |s|
            && n <= |t|
            && t[n..] == f.Mask(d, s, i + n)
            && (forall k :: 0 <= k < n && (f.At(d, s, i) ==> k < f.Kept()) ==> t[k] == s[i + k])
            && (f.At(d, s, i) ==> forall k :: f.Kept() <= k < f.Len() ==> t[k] == '*')
  {
    var t := f.Mask(d, s, i);
    if f.At(d, s, i) {
      var kept, rest := s[i..i + f.Kept()], f.Mask(d, s, i + f.Len());
      var stars := seq(f.Len() - f.Kept(), _ => '*');
      assert t == kept + stars + rest;
      assert t[f.Len()..] == rest;
      assert forall k :: 0 <= k < f.Kept() ==> t[k] == kept[k];
      assert forall k :: f.Kept() <= k < f.Len() ==> t[k] == stars[k - f.Kept()];
    }
  }

  /** A pass keeps every position and only writes stars, all of them in the tail of some match p. */
  lemma {:induction false} MaskStars(f: Pattern, d: DigitClass, s: string, i: nat, k: nat) returns (p: nat)
    requires i <= k < |s|
    ensures |f.Mask(d, s, i)| == |s| - i
    ensures var c := f.Mask(d, s, i)[k - i];
            c == s[k] || (c == '*' && f.At(d, s, p) && p + f.Kept() <= k < p + f.Len())
    decreases |s| - i
  {
    hide Pattern.Mask, Pattern.At;
    MaskLength(f, d, s, i);
    MaskStep(f, d, s, i);
    var t, n := f.Mask(d, s, i), Step(f, d, s, i);
    p := i;
    if k >= i + n {
      p := MaskStars(f, d, s, i + n, k);
      assert t[k - i] == t[n..][k - i - n];
    } else {
      assert t[k - i] == s[i + (k - i)] || (f.At(d, s, i) && t[k - i] == '*');
    }
  }

  lemma {:induction false} MaskLength(f: Pattern, d: DigitClass, s: string, i: nat)
    requires i <= |s|
    ensures |f.Mask(d, s, i)| == |s| - i
    decreases |s| - i
  {
    if i < |s| {
      MaskStep(f, d, s, i);
      MaskLength(f, d, s, i + Step(f, d, s, i));
    }
  }

  /** The pass from i comes to stand at p: it steps behind each match it meets, and else on by one. */
  predicate Reaches(f: Pattern, d: DigitClass, s: string, i: nat, p: nat)
    requires i <= |s|
    decreases |s| - i
  {
    i == p || (i < p && i < |s| && Reaches(f, d, s, i + Step(f, d, s, i), p))
  }

  /** And takes the match there. */
  predicate Takes(f: Pattern, d: DigitClass, s: string, i: nat, p: nat)
    requires i <= |s|
  {
    Reaches(f, d, s, i, p) && f.At(d, s, p)
  }

  /** Which matches are taken: those that do not start inside one taken before. */
  lemma {:induction false} TakesIff(f: Pattern, d: DigitClass, s: string, i: nat, p: nat)
    requires i <= p <= |s| && f.At(d, s, p)
    ensures Takes(f, d, s, i, p) <==>
              forall q: nat :: i <= q < p && Takes(f, d, s, i, q) ==> !Covers(f, q, p)
    decreases |s| - i
  {
    hide Pattern.At;
    if i < p {
      var n := Step(f, d, s, i);
      AtIsInside(f, d, s, i);
      AtIsInside(f, d, s, p);
      forall q | i < q <= p ensures Takes(f, d, s, i, q) <==> i + n <= q && Takes(f, d, s, i + n, q) {
        if Reaches(f, d, s, i + n, q) {
          ReachesOnwards(f, d, s, i + n, q);
        }
      }
      assert Takes(f, d, s, i, i) <==> f.At(d, s, i);
      if i + n <= p {
        TakesIff(f, d, s, i + n, p);
        forall q: nat | i <= q < p && Takes(f, d, s, i, q) && Covers(f, q, p)
          ensures i + n <= q && Takes(f, d, s, i + n, q)
        {
        }
      } else {
        assert Takes(f, d, s, i, i) && Covers(f, i, p);
      }
    }
  }

  lemma AtIsInside(f: Pattern, d: DigitClass, s: string, i: nat)
    ensures f.At(d, s, i) ==> i + f.Len() <= |s|
  {
  }

  lemma ReachesOnwards(f: Pattern, d: DigitClass, s: string, i: nat, p: nat)
    requires i <= |s| && Reaches(f, d, s, i, p)
    ensures i <= p
  {
  }

  /** From where the pass comes to stand the output goes on as if it started there. */
  lemma {:induction false} MaskOnwards(f: Pattern, d: DigitClass, s: string, i: nat, p: nat)
    requires i <= p <= |s| && Reaches(f, d, s, i, p)
    ensures |f.Mask(d, s, i)| == |s| - i && f.Mask(d, s, i)[p - i..] == f.Mask(d, s, p)
    decreases |s| - i
  {
    hide Pattern.Mask, Pattern.At;
    MaskLength(f, d, s, i);
    if i < p {
      MaskStep(f, d, s, i);
      var t, n := f.Mask(d, s, i), Step(f, d, s, i);
      ReachesOnwards(f, d, s, i + n, p);
      MaskOnwards(f, d, s, i + n, p);
      DropTwice(t, n, p - i - n);
    }
  }

  lemma DropTwice(t: string, n: nat, k: nat)
    requires n + k <= |t|
    ensures t[n..][k..] == t[n + k..]
  {
  }

  /** Of a resident number that is taken the first eight characters stay and the other six are starred. */
  lemma ResidentIsMasked(d: DigitClass, s: string, p: nat)
    requires Takes(Resident, d, s, 0, p)
    ensures var t := Resident.Mask(d, s, 0);
            |t| == |s| && p + 14 <= |s| && t[p..p + 8] == s[p..p + 8] && t[p + 8..p + 14] == "******"
  {
    MaskOnwards(Resident, d, s, 0, p);
    MaskStep(Resident, d, s, p);
    AtIsInside(Resident, d, s, p);
    MatchInOutput(Resident.Mask(d, s, 0), Resident.Mask(d, s, p), s, p, 8, "******");
  }

  /** Of an account number that is taken the first seven characters stay and the other five are starred. */
  lemma AccountIsMasked(d: DigitClass, s: string, p: nat)
    requires Takes(Account, d, s, 0, p)
    ensures var t := Account.Mask(d, s, 0);
            |t| == |s| && p + 12 <= |s| && t[p..p + 7] == s[p..p + 7] && t[p + 7..p + 12] == "*****"
  {
    MaskOnwards(Account, d, s, 0, p);
    MaskStep(Account, d, s, p);
    AtIsInside(Account, d, s, p);
    MatchInOutput(Account.Mask(d, s, 0), Account.Mask(d, s, p), s, p, 7, "*****");
  }

  lemma MatchInOutput(t: string, here: string, s: string, p: nat, kept: nat, stars: string)
    requires p <= |t| == |s| && t[p..] == here && p + kept + |stars| <= |s|
    requires forall k :: 0 <= k < kept ==> here[k] == s[p + k]
    requires |here| >= kept + |stars|
    requires forall k :: kept <= k < kept + |stars| ==> here[k] == '*'
    requires forall k :: 0 <= k < |stars| ==> stars[k] == '*'
    ensures t[p..p + kept] == s[p..p + kept] && t[p + kept..p + kept + |stars|] == stars
  {
    forall k | p <= k < p + kept + |stars| ensures t[k] == if k < p + kept then s[k] else '*' {
      assert t[k] == here[k - p];
    }
  }

  /** Whether a match at p covers the position k. */
  predicate Covers(f: Pattern, p: nat, k: nat) {
    p <= k < p + if f.Resident? then 14 else 12
  }

  /** No match that the pass takes covers the position. */
  ghost predicate Untaken(f: Pattern, d: DigitClass, s: string, i: nat, k: nat)
    requires i <= |s|
  {
    forall p: nat :: Takes(f, d, s, i, p) ==> !Covers(f, p, k)
  }

  /** Whatever lies in no match that is taken stays as it is. */
  lemma OutsideIsUnchanged(f: Pattern, d: DigitClass, s: string, k: nat)
    requires k < |s|
    requires Untaken(f, d, s, 0, k)
    ensures |f.Mask(d, s, 0)| == |s| && f.Mask(d, s, 0)[k] == s[k]
  {
    hide Pattern.Mask, Pattern.At;
    var p := LastReached(f, d, s, 0, k);
    assert Takes(f, d, s, 0, p) <==> f.At(d, s, p);
    MaskOnwards(f, d, s, 0, k);
    MaskStep(f, d, s, k);
    assert f.Mask(d, s, 0)[k] == f.Mask(d, s, 0)[k..][0];
  }

  /** The pass stands at a position, or steps over it with a match. */
  lemma {:induction false} LastReached(f: Pattern, d: DigitClass, s: string, i: nat, k: nat) returns (p: nat)
    requires i <= k < |s|
    ensures i <= p <= k && Reaches(f, d, s, i, p) && k < p + Step(f, d, s, p)
    decreases |s| - i
  {
    hide Pattern.At;
    AtIsInside(f, d, s, i);
    var n := Step(f, d, s, i);
    if k < i + n {
      p := i;
    } else {
      p := LastReached(f, d, s, i + n, k);
    }
  }

  /** Every match of the input, overlapped or not, gets a star. */
  lemma {:induction false} MatchIsStarred(f: Pattern, d: DigitClass, s: string, i: nat, p: nat)
    requires i <= p < |s| && f.At(d, s, p)
    ensures !StarFree(f.Mask(d, s, i), p - i, f.Len())
    decreases |s| - i
  {
    hide Pattern.Mask, Pattern.At;
    MaskLength(f, d, s, i);
    MaskStep(f, d, s, i);
    var t, n := f.Mask(d, s, i), Step(f, d, s, i);
    if f.At(d, s, i) && p < i + n {
      assert t[n - 1] == '*';
    } else {
      MatchIsStarred(f, d, s, i + n, p);
      var rest := f.Mask(d, s, i + n);
      if StarFree(t, p - i, f.Len()) { DropStarFree(t, n, rest, p - i, f.Len()); }
    }
  }

  lemma MatchIsStarFree(f: Pattern, d: DigitClass, s: string, p: nat)
    requires f.At(d, s, p)
    ensures StarFree(s, p, f.Len())
  {
    forall k | p <= k < p + f.Len() ensures s[k] != '*' {
      if s[k] != '-' && !('1' <= s[k] <= '4') { assert d(s[k]); }
    }
  }

  /** A match moves with its text. */
  lemma MatchMoves(f: Pattern, d: DigitClass, t: string, p: nat, s: string, b: nat)
    requires f.At(d, t, p) && b + f.Len() <= |s| && t[p..p + f.Len()] == s[b..b + f.Len()]
    ensures f.At(d, s, b)
  {
    forall k | b <= k < b + f.Len() ensures s[k] == t[p + (k - b)] {
      assert s[k] == s[b..b + f.Len()][k - b] == t[p..p + f.Len()][k - b];
    }
  }

  /** A match of g in the output of the f pass was already a match of g in the input. */
  lemma PassCreatesNoMatch(f: Pattern, g: Pattern, d: DigitClass, s: string, p: nat)
    requires g.At(d, f.Mask(d, s, 0), p)
    ensures f != g && g.At(d, s, p)
  {
    var t := f.Mask(d, s, 0);
    MaskLength(f, d, s, 0);
    MatchIsStarFree(g, d, t, p);
    forall k | p <= k < p + g.Len() ensures t[k] == s[k] { var _ := MaskStars(f, d, s, 0, k); }
    assert t[p..p + g.Len()] == s[p..p + g.Len()];
    MatchMoves(g, d, t, p, s, p);
    if f == g { MatchIsStarred(f, d, s, 0, p); }
  }

  // ---------------------------------------------------------------------------
  // Mobile phone numbers
  // ---------------------------------------------------------------------------

  /** The length of the phone match that starts at i, or 0 when there is none. */
  function PhoneLen(d: DigitClass, s: string, i: nat): (n: nat)
    ensures n == 0 || (n in {12, 13} && i + n <= |s|)
  {
    if i + 4 <= |s| && s[i..i + 4] == "010-" then
      if i + 13 <= |s| && Digits(d, s, i + 4, 4) && s[i + 8] == '-' && Digits(d, s, i + 9, 4) then 13
      else if i + 12 <= |s| && Digits(d, s, i + 4, 3) && s[i + 7] == '-' && Digits(d, s, i + 8, 4) then 12
      else 0
    else 0
  }

  function MaskPhone(d: DigitClass, s: string, i: nat): string
    requires i <= |s|
    decreases |s| - i
  {
    if i == |s| then ""
    else
      var n := PhoneLen(d, s, i);
      if n > 0 then s[i..i + 3] + "-****-" + s[i + n - 4..i + n] + MaskPhone(d, s, i + n)
      else [s[i]] + MaskPhone(d, s, i + 1)
  }

  function MaskPii(d: DigitClass, text: string): string {
    MaskPhone(d, Account.Mask(d, Resident.Mask(d, text, 0), 0), 0)
  }

  // ---------------------------------------------------------------------------
  // The phone pass changes lengths: star-free stretches are copied
  // ---------------------------------------------------------------------------

  lemma SliceOfSlice(s: string, x: nat, y: nat, u: nat, v: nat)
    requires x <= y <= |s| && u <= v <= y - x
    ensures s[x..y][u..v] == s[x + u..x + v]
  {
    assert forall k :: 0 <= k < v - u ==> s[x..y][u..v][k] == s[x + u..x + v][k];
  }

  /** The output for a phone match, piece by piece. */
  lemma PhoneBlock(d: DigitClass, s: string, i: nat)
    requires i <= |s| && PhoneLen(d, s, i) > 0
    ensures var n, t := PhoneLen(d, s, i), MaskPhone(d, s, i);
            && |t| >= 13
            && t[..4] == s[i..i + 4] == "010-"
            && t[4] == t[5] == t[6] == t[7] == '*'
            && t[8..13] == s[i + n - 5..i + n]
            && t[13..] == MaskPhone(d, s, i + n)
  {
    var n, t := PhoneLen(d, s, i), MaskPhone(d, s, i);
    var rest := MaskPhone(d, s, i + n);
    assert s[i..i + 4] == "010-";
    assert s[i + 3] == s[i..i + 4][3];
    assert s[i..i + 3] + ['-'] == s[i..i + 4];
    assert s[i + n - 5] == '-';
    assert s[i + n - 5..i + n] == ['-'] + s[i + n - 4..i + n];
    assert t == s[i..i + 4] + "****" + s[i + n - 5..i + n] + rest;
  }

  lemma PhoneCopy(d: DigitClass, s: string, i: nat)
    requires i <= |s| && PhoneLen(d, s, i) == 0 && (i < |s| || |MaskPhone(d, s, i)| > 0)
    ensures i < |s| && |MaskPhone(d, s, i)| > 0 && MaskPhone(d, s, i)[0] == s[i]
            && MaskPhone(d, s, i)[1..] == MaskPhone(d, s, i + 1)
  {
  }

  /** A star-free stretch that starts in the first eight characters of a masked number. */
  lemma PhoneHead(d: DigitClass, s: string, i: nat, a: nat, n: nat)
    requires i <= |s| && PhoneLen(d, s, i) > 0
    requires a < 8 && n > 0 && StarFree(MaskPhone(d, s, i), a, n)
    ensures i + a + n <= |s| && MaskPhone(d, s, i)[a..a + n] == s[i + a..i + a + n]
  {
    var t := MaskPhone(d, s, i);
    PhoneBlock(d, s, i);
    if a + n > 4 {
      assert false;
    }
    SliceOfSlice(t, 0, 4, a, a + n);
    SliceOfSlice(s, i, i + 4, a, a + n);
  }

  lemma SameAfterFirst(t: string, rest: string, s: string, i: nat, n: nat)
    requires 0 < n <= |t| && i + n <= |s| && t[0] == s[i] && t[1..] == rest && rest[..n - 1] == s[i + 1..i + n]
    ensures t[..n] == s[i..i + n]
  {
    forall k | 0 <= k < n ensures t[k] == s[i + k] {
      if k > 0 {
        assert t[k] == rest[..n - 1][k - 1] && s[i + k] == s[i + 1..i + n][k - 1];
      }
    }
  }

  /** A star-free prefix of the output is a prefix of the input. */
  lemma {:induction false} PhonePrefix(d: DigitClass, s: string, i: nat, n: nat)
    requires i <= |s|
    requires StarFree(MaskPhone(d, s, i), 0, n)
    ensures i + n <= |s| && MaskPhone(d, s, i)[..n] == s[i..i + n]
    decreases |s| - i
  {
    hide MaskPhone, PhoneLen;
    var t := MaskPhone(d, s, i);
    if n > 0 {
      if PhoneLen(d, s, i) > 0 {
        PhoneHead(d, s, i, 0, n);
      } else {
        PhoneCopy(d, s, i);
        var rest := MaskPhone(d, s, i + 1);
        DropStarFree(t, 1, rest, 1, n - 1);
        PhonePrefix(d, s, i + 1, n - 1);
        SameAfterFirst(t, rest, s, i, n);
      }
    }
  }

  /** A star-free stretch of the output occurs in the input. */
  lemma {:induction false} PhoneWindow(d: DigitClass, s: string, i: nat, a: nat, n: nat) returns (b: nat)
    requires i <= |s|
    requires n > 0 && StarFree(MaskPhone(d, s, i), a, n)
    ensures i <= b && b + n <= |s| && MaskPhone(d, s, i)[a..a + n] == s[b..b + n]
    decreases |s| - i
  {
    hide MaskPhone, PhoneLen;
    var t := MaskPhone(d, s, i);
    if a == 0 {
      PhonePrefix(d, s, i, n);
      return i;
    }
    var m := PhoneLen(d, s, i);
    if m == 0 {
      PhoneCopy(d, s, i);
      DropStarFree(t, 1, MaskPhone(d, s, i + 1), a, n);
      b := PhoneWindow(d, s, i + 1, a - 1, n);
    } else if a < 8 {
      PhoneHead(d, s, i, a, n);
      b := i + a;
    } else if a < 13 {
      b := PhoneTail(d, s, i, a, n);
    } else {
      PhoneRest(d, s, i);
      DropStarFree(t, 13, MaskPhone(d, s, i + m), a, n);
      b := PhoneWindow(d, s, i + m, a - 13, n);
    }
  }

  /** After a masked number the pass goes on behind it. */
  lemma PhoneRest(d: DigitClass, s: string, i: nat)
    requires i <= |s| && PhoneLen(d, s, i) > 0
    ensures var n, t := PhoneLen(d, s, i), MaskPhone(d, s, i);
            12 <= n && i + n <= |s| && |t| >= 13 && t[13..] == MaskPhone(d, s, i + n)
  {
    PhoneBlock(d, s, i);
  }

  /** A slice across a cut is what is before the cut and what is after it. */
  lemma JoinedSlice(s: string, a: nat, cut: nat, m: nat)
    requires a <= cut <= a + m <= |s|
    ensures |s[cut..]| == |s| - cut && s[cut..][..a + m - cut] == s[cut..a + m]
    ensures s[a..a + m] == s[a..cut] + s[cut..a + m]
  {
  }

  /** A star-free stretch that starts in the last five characters of a masked number. */
  lemma PhoneTail(d: DigitClass, s: string, i: nat, a: nat, n: nat) returns (b: nat)
    requires i <= |s| && PhoneLen(d, s, i) > 0
    requires 8 <= a < 13 && StarFree(MaskPhone(d, s, i), a, n)
    ensures b == i + PhoneLen(d, s, i) - 13 + a
    ensures b + n <= |s| && MaskPhone(d, s, i)[a..a + n] == s[b..b + n]
  {
    hide MaskPhone, PhoneLen;
    var t, m := MaskPhone(d, s, i), PhoneLen(d, s, i);
    assert 12 <= m && |t| >= 13 && t[8..13] == s[i + m - 5..i + m] && t[13..] == MaskPhone(d, s, i + m) by {
      PhoneBlock(d, s, i);
    }
    b := i + m - 13 + a;
    if a + n <= 13 {
      SliceOfSlice(t, 8, 13, a - 8, a - 8 + n);
      SliceOfSlice(s, i + m - 5, i + m, a - 8, a - 8 + n);
    } else {
      PhoneBehind(d, s, i, a, n);
      SameAcross(t, 13, s, i + m, a, n);
    }
  }

  /** What of such a stretch lies behind the masked number. */
  lemma PhoneBehind(d: DigitClass, s: string, i: nat, a: nat, n: nat)
    requires i <= |s| && PhoneLen(d, s, i) > 0 && a <= 13 < a + n && StarFree(MaskPhone(d, s, i), a, n)
    ensures var t, c, k := MaskPhone(d, s, i), i + PhoneLen(d, s, i), a + n - 13;
            13 <= |t| && c + k <= |s| && k <= |t[13..]| && t[13..][..k] == s[c..c + k]
  {
    hide MaskPhone, PhoneLen;
    var t, rest := MaskPhone(d, s, i), MaskPhone(d, s, i + PhoneLen(d, s, i));
    PhoneRest(d, s, i);
    DropStarFree(t, 13, rest, 13, a + n - 13);
    PhonePrefix(d, s, i + PhoneLen(d, s, i), a + n - 13);
  }

  /** Two texts that agree on the five characters before a cut and on some after it agree across it. */
  lemma SameAcross(t: string, cut: nat, s: string, c: nat, a: nat, n: nat)
    requires 5 <= cut <= |t| && 5 <= c <= |s| && t[cut - 5..cut] == s[c - 5..c]
    requires cut - 5 <= a <= cut <= a + n <= |t| && c + (a + n - cut) <= |s|
    requires t[cut..][..a + n - cut] == s[c..c + (a + n - cut)]
    ensures t[a..a + n] == s[c - (cut - a)..c - (cut - a) + n]
  {
    var b := c - (cut - a);
    SliceOfSlice(t, cut - 5, cut, a - (cut - 5), 5);
    SliceOfSlice(s, c - 5, c, a - (cut - 5), 5);
    JoinedSlice(t, a, cut, n);
    JoinedSlice(s, b, c, n);
  }

  // ---------------------------------------------------------------------------
  // Completeness for resident and account numbers
  // ---------------------------------------------------------------------------

  /** No resident number and no account number survives masking, wherever it stands. */
  lemma MaskPiiIsComplete(f: Pattern, d: DigitClass, text: string, p: nat)
    ensures !f.At(d, MaskPii(d, text), p)
  {
    var t1 := Resident.Mask(d, text, 0);
    var t2 := Account.Mask(d, t1, 0);
    var t3 := MaskPii(d, text);
    if f.At(d, t3, p) {
      MatchIsStarFree(f, d, t3, p);
      var b := PhoneWindow(d, t2, 0, p, f.Len());
      MatchMoves(f, d, t3, p, t2, b);
      PassCreatesNoMatch(Account, f, d, t1, b);
      PassCreatesNoMatch(Resident, f, d, text, b);
    }
  }

  // ---------------------------------------------------------------------------
  // Phone numbers: exactly when one survives
  // ---------------------------------------------------------------------------

  /**
   * Masking one number consumes its last digits. When they start another number y, that
   * number is skipped, and it survives unless its own second half starts a third one.
   */
  predicate SkipsAt(d: DigitClass, s: string, i: nat) {
    exists y :: i + PhoneLen(d, s, i) - 3 <= y < i + PhoneLen(d, s, i) && y >= 0 && SurvivesAt(d, s, y)
  }

  predicate SurvivesAt(d: DigitClass, s: string, y: nat) {
    PhoneLen(d, s, y) > 0 && PhoneLen(d, s, y + PhoneLen(d, s, y) - 8) == 0
  }

  /** Some number that the left-to-right pass masks skips another one. */
  predicate Skips(d: DigitClass, s: string, i: nat)
    requires i <= |s|
    decreases |s| - i
  {
    i < |s| &&
    var n := PhoneLen(d, s, i);
    if n > 0 then SkipsAt(d, s, i) || Skips(d, s, i + n) else Skips(d, s, i + 1)
  }

  lemma PhoneShape(d: DigitClass, s: string, p: nat)
    requires PhoneLen(d, s, p) > 0
    ensures var n := PhoneLen(d, s, p);
            && s[p] == '0' && s[p + 1] == '1' && s[p + 2] == '0'
            && s[p + 3] == '-' && s[p + n - 5] == '-'
            && (forall k :: p + 4 <= k < p + n && k != p + n - 5 ==> d(s[k]))
            && StarFree(s, p, n)
  {
    assert s[p..p + 4] == "010-";
    assert s[p] == s[p..p + 4][0] && s[p + 1] == s[p..p + 4][1];
    assert s[p + 2] == s[p..p + 4][2] && s[p + 3] == s[p..p + 4][3];
  }

  lemma PhoneMoves(d: DigitClass, t: string, p: nat, s: string, b: nat)
    requires PhoneLen(d, t, p) > 0
    requires b + PhoneLen(d, t, p) <= |s| && t[p..p + PhoneLen(d, t, p)] == s[b..b + PhoneLen(d, t, p)]
    ensures PhoneLen(d, s, b) == PhoneLen(d, t, p)
  {
    var n := PhoneLen(d, t, p);
    PhoneShape(d, t, p);
    forall k | b <= k < b + n ensures s[k] == t[p + (k - b)] {
      assert s[k] == s[b..b + n][k - b] == t[p..p + n][k - b];
    }
    assert s[b..b + 4] == "010-";
  }

  /** Where a second number can start inside a first. */
  lemma PhoneInside(d: DigitClass, s: string, y: nat, z: nat)
    requires PhoneLen(d, s, y) > 0 && PhoneLen(d, s, z) > 0 && y < z < y + PhoneLen(d, s, y)
    ensures z == y + PhoneLen(d, s, y) - 8 || z >= y + PhoneLen(d, s, y) - 3
  {
    PhoneShape(d, s, y);
    PhoneShape(d, s, z);
  }

  lemma {:induction false} PhoneCopyUntil(d: DigitClass, s: string, k: nat, z: nat)
    requires k <= z <= |s| && forall w :: k <= w < z ==> PhoneLen(d, s, w) == 0
    ensures MaskPhone(d, s, k) == s[k..z] + MaskPhone(d, s, z)
    decreases z - k
  {
    if k < z { PhoneCopyUntil(d, s, k + 1, z); }
  }

  /** The stars of the next number are at least four characters away. */
  lemma {:induction false} PhoneFirstFour(d: DigitClass, s: string, k: nat, n: nat)
    requires n <= 4 && k + n <= |s|
    ensures |MaskPhone(d, s, k)| >= n && MaskPhone(d, s, k)[..n] == s[k..k + n]
    decreases n
  {
    hide MaskPhone, PhoneLen;
    var t := MaskPhone(d, s, k);
    if n > 0 {
      if PhoneLen(d, s, k) > 0 {
        PhoneBlock(d, s, k);
        SliceOfSlice(t, 0, 4, 0, n);
        SliceOfSlice(s, k, k + 4, 0, n);
      } else {
        PhoneCopy(d, s, k);
        PhoneFirstFour(d, s, k + 1, n - 1);
        assert t[..n] == [s[k]] + t[1..][..n - 1];
        assert s[k..k + n] == [s[k]] + s[k + 1..k + n];
      }
    }
  }

  lemma PhoneAtEnd(d: DigitClass, s: string, a: nat)
    ensures PhoneLen(d, MaskPhone(d, s, |s|), a) == 0
  {
  }

  /** What follows a masked number up to y's last four digits, when no third number interferes. */
  lemma SkippedNumberIsCopied(d: DigitClass, s: string, k: nat, y: nat)
    requires y < k <= y + 3 && SurvivesAt(d, s, y)
    ensures var m, rest := PhoneLen(d, s, y), MaskPhone(d, s, k);
            |rest| >= y + m - k && rest[..y + m - k] == s[k..y + m]
  {
    hide MaskPhone, PhoneLen;
    var m := PhoneLen(d, s, y);
    var z := y + m - 3;
    forall w | k <= w < z ensures PhoneLen(d, s, w) == 0 {
      if PhoneLen(d, s, w) > 0 { PhoneInside(d, s, y, w); }
    }
    PhoneCopyUntil(d, s, k, z);
    PhoneFirstFour(d, s, z, 3);
    assert MaskPhone(d, s, k)[..y + m - k] == s[k..z] + MaskPhone(d, s, z)[..3];
    assert s[k..y + m] == s[k..z] + s[z..z + 3];
  }

  /** A third number at z puts its stars inside the skipped number y. */
  lemma ThirdNumberStars(d: DigitClass, s: string, k: nat, y: nat)
    requires y < k <= y + 3 && PhoneLen(d, s, y) > 0 && !SurvivesAt(d, s, y)
    ensures !StarFree(MaskPhone(d, s, k), 0, y + PhoneLen(d, s, y) - k)
  {
    hide MaskPhone, PhoneLen;
    var m := PhoneLen(d, s, y);
    var z := y + m - 8;
    forall w | k <= w < z ensures PhoneLen(d, s, w) == 0 {
      if PhoneLen(d, s, w) > 0 { PhoneInside(d, s, y, w); }
    }
    PhoneCopyUntil(d, s, k, z);
    PhoneBlock(d, s, z);
    assert MaskPhone(d, s, k)[z - k + 4] == MaskPhone(d, s, z)[4] == '*';
  }

  lemma TailSurvivor(d: DigitClass, s: string, i: nat, a: nat)
    requires i <= |s| && PhoneLen(d, s, i) > 0
    requires 8 <= a < 13 && PhoneLen(d, MaskPhone(d, s, i), a) > 0
    ensures SkipsAt(d, s, i)
  {
    hide MaskPhone, PhoneLen;
    var t := MaskPhone(d, s, i);
    var m, n := PhoneLen(d, t, a), PhoneLen(d, s, i);
    PhoneShape(d, t, a);
    var y := PhoneTail(d, s, i, a, m);
    PhoneMoves(d, t, a, s, y);
    PhoneShape(d, s, i);
    PhoneShape(d, s, y);
    if !SurvivesAt(d, s, y) {
      PhoneBlock(d, s, i);
      ThirdNumberStars(d, s, i + n, y);
      DropStarFree(t, 13, MaskPhone(d, s, i + n), 13, a + m - 13);
    }
  }

  /** A number in the output is one that was skipped. */
  lemma {:induction false} SurvivorWasSkipped(d: DigitClass, s: string, i: nat, a: nat)
    requires i <= |s| && PhoneLen(d, MaskPhone(d, s, i), a) > 0
    ensures Skips(d, s, i)
    decreases |s| - i
  {
    hide MaskPhone, PhoneLen;
    var t := MaskPhone(d, s, i);
    var m, n := PhoneLen(d, t, a), PhoneLen(d, s, i);
    PhoneAtEnd(d, s, a);
    PhoneShape(d, t, a);
    if n == 0 {
      PhoneCopy(d, s, i);
      if a == 0 {
        PhonePrefix(d, s, i, m);
        PhoneMoves(d, t, 0, s, i);
        assert false;
      }
      DropStarFree(t, 1, MaskPhone(d, s, i + 1), a, m);
      PhoneMoves(d, t, a, MaskPhone(d, s, i + 1), a - 1);
      SurvivorWasSkipped(d, s, i + 1, a - 1);
    } else {
      PhoneBlock(d, s, i);
      if a < 8 {
        assert false;
      } else if a < 13 {
        TailSurvivor(d, s, i, a);
      } else {
        DropStarFree(t, 13, MaskPhone(d, s, i + n), a, m);
        PhoneMoves(d, t, a, MaskPhone(d, s, i + n), a - 13);
        SurvivorWasSkipped(d, s, i + n, a - 13);
      }
    }
  }

  /** A number skipped at a match stands in the output across the end of its stars. */
  lemma SkippedHere(d: DigitClass, s: string, i: nat) returns (a: nat)
    requires i <= |s| && PhoneLen(d, s, i) > 0 && SkipsAt(d, s, i)
    ensures PhoneLen(d, MaskPhone(d, s, i), a) > 0
  {
    hide MaskPhone, PhoneLen;
    var t, n := MaskPhone(d, s, i), PhoneLen(d, s, i);
    PhoneBlock(d, s, i);
    var y :| i + n - 3 <= y < i + n && y >= 0 && SurvivesAt(d, s, y);
    var m, k := PhoneLen(d, s, y), i + n - y;
    SkippedNumberIsCopied(d, s, i + n, y);
    a := 13 - k;
    SameAcross(t, 13, s, i + n, a, m);
    PhoneMoves(d, s, y, t, a);
  }

  lemma {:induction false} SkippedSurvives(d: DigitClass, s: string, i: nat) returns (a: nat)
    requires i <= |s| && Skips(d, s, i)
    ensures PhoneLen(d, MaskPhone(d, s, i), a) > 0
    decreases |s| - i
  {
    hide MaskPhone, PhoneLen;
    var t, n := MaskPhone(d, s, i), PhoneLen(d, s, i);
    if n == 0 {
      a := SkippedSurvives(d, s, i + 1);
      PhoneCopy(d, s, i);
      Reappears(d, t, 1, MaskPhone(d, s, i + 1), a);
      a := a + 1;
    } else {
      PhoneBlock(d, s, i);
      var rest := MaskPhone(d, s, i + n);
      if SkipsAt(d, s, i) {
        a := SkippedHere(d, s, i);
      } else {
        a := SkippedSurvives(d, s, i + n);
        Reappears(d, t, 13, rest, a);
        a := a + 13;
      }
    }
  }

  lemma Reappears(d: DigitClass, t: string, c: nat, rest: string, a: nat)
    requires c <= |t| && t[c..] == rest && PhoneLen(d, rest, a) > 0
    ensures PhoneLen(d, t, a + c) > 0
  {
    var m := PhoneLen(d, rest, a);
    SliceOfSlice(t, c, |t|, a, a + m);
    PhoneMoves(d, rest, a, t, a + c);
  }

  /** The output holds a phone number exactly when the pass, run over its input, skips one. */
  lemma PhoneSurvivesIffSkipped(d: DigitClass, text: string)
    ensures (exists p :: PhoneLen(d, MaskPii(d, text), p) > 0)
       <==> Skips(d, Account.Mask(d, Resident.Mask(d, text, 0), 0), 0)
  {
    var t2 := Account.Mask(d, Resident.Mask(d, text, 0), 0);
    if p :| PhoneLen(d, MaskPii(d, text), p) > 0 { SurvivorWasSkipped(d, t2, 0, p); }
    if Skips(d, t2, 0) { var a := SkippedSurvives(d, t2, 0); }
  }

  const OVERLAPPING: string := "010-1234-5010-1234-5678"

  lemma OverlappingHasNoFixedMatch(f: Pattern, d: DigitClass, p: nat)
    ensures !f.At(d, OVERLAPPING, p)
  {
    var s := OVERLAPPING;
    assert s[3] == s[8] == s[13] == s[18] == '-';
  }

  lemma OverlappingSkips(d: DigitClass)
    ensures Skips(d, OVERLAPPING, 0)
  {
    var s := OVERLAPPING;
    OverlappingNumber(d, 0);
    OverlappingNumber(d, 10);
    assert PhoneLen(d, s, 15) == 0 by { assert s[15..19][0] == '2'; }
    hide PhoneLen;
    assert SurvivesAt(d, s, 10);
  }

  lemma OverlappingNumber(d: DigitClass, p: nat)
    requires p == 0 || p == 10
    ensures PhoneLen(d, OVERLAPPING, p) == 13
  {
    var s := OVERLAPPING;
    assert s[p] == '0' && s[p + 1] == '1' && s[p + 2] == '0' && s[p + 3] == '-' && s[p + 8] == '-';
    assert s[p..p + 4] == [s[p], s[p + 1], s[p + 2], s[p + 3]];
  }

  /** One such text: the second number starts in the last digits of the first. */
  lemma PhoneCanSurvive(d: DigitClass)
    ensures exists p :: PhoneLen(d, MaskPii(d, OVERLAPPING), p) > 0
  {
    forall p | 0 <= p <= |OVERLAPPING| ensures !Resident.At(d, OVERLAPPING, p) && !Account.At(d, OVERLAPPING, p) {
      OverlappingHasNoFixedMatch(Resident, d, p);
      OverlappingHasNoFixedMatch(Account, d, p);
    }
    MaskIdentity(Resident, d, OVERLAPPING, 0);
    MaskIdentity(Account, d, OVERLAPPING, 0);
    OverlappingSkips(d);
    PhoneSurvivesIffSkipped(d, OVERLAPPING);
  }

  // ---------------------------------------------------------------------------
  // Phone numbers: what the pass makes of them
  // ---------------------------------------------------------------------------

  function PhoneStep(d: DigitClass, s: string, i: nat): (n: nat)
    ensures 1 <= n && (i < |s| ==> i + n <= |s|)
  {
    if PhoneLen(d, s, i) > 0 then PhoneLen(d, s, i) else 1
  }

  predicate PhoneReaches(d: DigitClass, s: string, i: nat, p: nat)
    requires i <= |s|
    decreases |s| - i
  {
    i == p || (i < p && i < |s| && PhoneReaches(d, s, i + PhoneStep(d, s, i), p))
  }

  /** By how much the output is ahead at p: a number with three digits in the middle gets a fourth star. */
  function Ahead(d: DigitClass, s: string, i: nat, p: nat): nat
    requires i <= |s| && PhoneReaches(d, s, i, p)
    decreases |s| - i
  {
    if i == p then 0
    else (if PhoneLen(d, s, i) == 12 then 1 else 0) + Ahead(d, s, i + PhoneStep(d, s, i), p)
  }

  lemma {:induction false} PhoneOnwards(d: DigitClass, s: string, i: nat, p: nat)
    requires i <= |s| && p <= |s| && PhoneReaches(d, s, i, p)
    ensures i <= p
    ensures var o := p - i + Ahead(d, s, i, p);
            o <= |MaskPhone(d, s, i)| && MaskPhone(d, s, i)[o..] == MaskPhone(d, s, p)
    decreases |s| - i
  {
    hide MaskPhone, PhoneLen;
    if i < p {
      var t, n := MaskPhone(d, s, i), PhoneLen(d, s, i);
      PhoneOnwards(d, s, i + PhoneStep(d, s, i), p);
      var o := p - i - PhoneStep(d, s, i) + Ahead(d, s, i + PhoneStep(d, s, i), p);
      if n > 0 {
        PhoneRest(d, s, i);
        assert t[13..][o..] == t[13 + o..];
      } else {
        PhoneStands(d, s, i);
        assert t[1..][o..] == t[1 + o..];
      }
    }
  }

  lemma PhoneStands(d: DigitClass, s: string, i: nat)
    requires i < |s| && PhoneLen(d, s, i) == 0
    ensures var t := MaskPhone(d, s, i);
            |t| > 0 && t[0] == s[i] && t[1..] == MaskPhone(d, s, i + 1)
  {
  }

  /**
   * Where the pass comes to stand, a phone number keeps its first four and last five characters
   * around four stars, and any other character stays.
   */
  lemma PhoneIsMasked(d: DigitClass, s: string, p: nat)
    requires p < |s| && PhoneReaches(d, s, 0, p)
    ensures var t, n, o := MaskPhone(d, s, 0), PhoneLen(d, s, p), p + Ahead(d, s, 0, p);
            if n > 0 then
              && o + 13 <= |t| && t[o..o + 4] == s[p..p + 4] && t[o + 4..o + 8] == "****"
              && t[o + 8..o + 13] == s[p + n - 5..p + n]
            else o < |t| && t[o] == s[p]
  {
    hide MaskPhone, PhoneLen;
    PhoneOnwards(d, s, 0, p);
    var t, n, o, here := MaskPhone(d, s, 0), PhoneLen(d, s, p), p + Ahead(d, s, 0, p), MaskPhone(d, s, p);
    if n > 0 {
      PhoneBlock(d, s, p);
      SliceOfSlice(t, o, |t|, 0, 4);
      SliceOfSlice(t, o, |t|, 4, 8);
      SliceOfSlice(t, o, |t|, 8, 13);
      assert here[0..4] == here[..4];
      assert here[4..8] == "****";
    } else {
      PhoneStands(d, s, p);
      assert t[o] == t[o..][0];
    }
  }

  /** The pass stands at a position, or steps over it with a number; and it ends at the end. */
  lemma {:induction false} PhoneLastReached(d: DigitClass, s: string, i: nat, k: nat) returns (p: nat)
    requires i <= k <= |s|
    ensures i <= p <= k && PhoneReaches(d, s, i, p) && (k < |s| ==> k < p + PhoneStep(d, s, p)) && (k == |s| ==> p == k)
    decreases |s| - i
  {
    hide PhoneLen;
    if i == |s| || k < i + PhoneStep(d, s, i) {
      p := i;
    } else {
      p := PhoneLastReached(d, s, i + PhoneStep(d, s, i), k);
    }
  }

  /** The output is longer than the text by one for each such number, and no longer. */
  lemma PhoneLength(d: DigitClass, s: string)
    ensures PhoneReaches(d, s, 0, |s|) && |MaskPhone(d, s, 0)| == |s| + Ahead(d, s, 0, |s|)
  {
    var p := PhoneLastReached(d, s, 0, |s|);
    PhoneOnwards(d, s, 0, |s|);
  }

  /** A text that is one number, masked from end to end. */
  lemma LoneNumber(d: DigitClass, text: string)
    ensures |text| == 14 && Resident.At(d, text, 0) ==> MaskPii(d, text) == text[..8] + "******"
    ensures |text| == 12 && Account.At(d, text, 0) ==> MaskPii(d, text) == text[..7] + "*****"
    ensures PhoneLen(d, text, 0) == |text| > 0 ==> MaskPii(d, text) == text[..4] + "****" + text[|text| - 5..]
  {
    if |text| == 14 && Resident.At(d, text, 0) {
      LoneResident(d, text);
    }
    if |text| == 12 && Account.At(d, text, 0) {
      LoneAccount(d, text);
    }
    if PhoneLen(d, text, 0) == |text| > 0 {
      LonePhone(d, text);
    }
  }

  /** So one text of each kind. */
  lemma MaskedTexts(d: DigitClass)
    ensures MaskPii(d, "900101-1234567") == "900101-1******"
    ensures MaskPii(d, "123-45-67890") == "123-45-*****"
    ensures MaskPii(d, "010-1234-5678") == "010-****-5678"
    ensures MaskPii(d, "010-123-4567") == "010-****-4567"
  {
    hide MaskPii;
    MaskedResident(d);
    MaskedAccount(d);
    MaskedPhone(d);
    MaskedShortPhone(d);
  }

  lemma MaskedResident(d: DigitClass)
    ensures MaskPii(d, "900101-1234567") == "900101-1******"
  {
    hide MaskPii;
    LoneNumber(d, "900101-1234567");
  }

  lemma MaskedAccount(d: DigitClass)
    ensures MaskPii(d, "123-45-67890") == "123-45-*****"
  {
    hide MaskPii;
    LoneNumber(d, "123-45-67890");
  }

  lemma MaskedPhone(d: DigitClass)
    ensures MaskPii(d, "010-1234-5678") == "010-****-5678"
  {
    hide MaskPii;
    LoneNumber(d, "010-1234-5678");
    assert "010-1234-5678"[0..4] == "010-";
  }

  lemma MaskedShortPhone(d: DigitClass)
    ensures MaskPii(d, "010-123-4567") == "010-****-4567"
  {
    hide MaskPii;
    LoneNumber(d, "010-123-4567");
    assert "010-123-4567"[0..4] == "010-";
  }

  lemma LoneResident(d: DigitClass, text: string)
    requires |text| == 14 && Resident.At(d, text, 0)
    ensures MaskPii(d, text) == text[..8] + "******"
  {
    hide MaskPhone, Pattern.Mask;
    ResidentIsMasked(d, text, 0);
    var t := Resident.Mask(d, text, 0);
    assert t == t[0..8] + t[8..14];
    StarredHasNoPhone(d, t, 8);
    StarredHasNoMatch(Account, d, t, 8);
    MaskIdentity(Account, d, t, 0);
    MaskPhoneIdentity(d, t, 0);
  }

  lemma LoneAccount(d: DigitClass, text: string)
    requires |text| == 12 && Account.At(d, text, 0)
    ensures MaskPii(d, text) == text[..7] + "*****"
  {
    hide MaskPhone, Pattern.Mask;
    MaskIdentity(Resident, d, text, 0);
    assert text[0..] == text;
    AccountIsMasked(d, text, 0);
    var t := Account.Mask(d, text, 0);
    assert t == t[0..7] + t[7..12];
    StarredHasNoPhone(d, t, 7);
    MaskPhoneIdentity(d, t, 0);
  }

  lemma LonePhone(d: DigitClass, text: string)
    requires PhoneLen(d, text, 0) == |text| > 0
    ensures MaskPii(d, text) == text[..4] + "****" + text[|text| - 5..]
  {
    hide MaskPhone, Pattern.Mask;
    PhoneShape(d, text, 0);
    MaskIdentity(Resident, d, text, 0);
    assert text[0..] == text;
    assert d(text[4]) && d(text[6]);
    MaskIdentity(Account, d, text, 0);
    PhoneIsMasked(d, text, 0);
    PhoneLength(d, text);
    var t := MaskPhone(d, text, 0);
    PhoneBlock(d, text, 0);
    assert MaskPhone(d, text, |text|) == "" by { NothingMore(d, text); }
    assert t == t[0..4] + t[4..8] + t[8..13];
  }

  lemma NothingMore(d: DigitClass, s: string)
    ensures MaskPhone(d, s, |s|) == ""
  {
  }

  /** In a short text with a star in the middle no number fits. */
  lemma StarredHasNoPhone(d: DigitClass, t: string, c: nat)
    requires 2 <= c < 12 && |t| <= 14 && forall k :: c <= k < |t| ==> t[k] == '*'
    ensures forall p :: 0 <= p <= |t| ==> PhoneLen(d, t, p) == 0
  {
    hide PhoneLen;
    forall p | 0 <= p <= |t| ensures PhoneLen(d, t, p) == 0 {
      if PhoneLen(d, t, p) > 0 {
        assert t[p + PhoneLen(d, t, p) - 1] == '*';
        PhoneShape(d, t, p);
        assert false;
      }
    }
  }

  lemma StarredHasNoMatch(f: Pattern, d: DigitClass, t: string, c: nat)
    requires 2 <= c < 12 && |t| <= 14 && forall k :: c <= k < |t| ==> t[k] == '*'
    ensures forall p :: 0 <= p <= |t| ==> !f.At(d, t, p)
  {
    hide Pattern.At;
    forall p | 0 <= p <= |t| ensures !f.At(d, t, p) {
      if f.At(d, t, p) {
        AtIsInside(f, d, t, p);
        assert t[p + f.Len() - 1] == '*';
        MatchIsStarFree(f, d, t, p);
        assert false;
      }
    }
  }

  // ---------------------------------------------------------------------------
  // Text without personal data is left alone
  // ---------------------------------------------------------------------------

  lemma {:induction false} MaskPhoneIdentity(d: DigitClass, s: string, i: nat)
    requires i <= |s| && forall p :: i <= p <= |s| ==> PhoneLen(d, s, p) == 0
    ensures MaskPhone(d, s, i) == s[i..]
    decreases |s| - i
  {
    if i < |s| { MaskPhoneIdentity(d, s, i + 1); }
  }

  lemma {:induction false} MaskIdentity(f: Pattern, d: DigitClass, s: string, i: nat)
    requires i <= |s| && forall p :: i <= p <= |s| ==> !f.At(d, s, p)
    ensures f.Mask(d, s, i) == s[i..]
    decreases |s| - i
  {
    if i < |s| { MaskIdentity(f, d, s, i + 1); }
  }

  lemma CleanTextIsUnchanged(d: DigitClass, text: string)
    requires forall p :: 0 <= p <= |text| ==>
               !Resident.At(d, text, p) && !Account.At(d, text, p) && PhoneLen(d, text, p) == 0
    ensures MaskPii(d, text) == text
  {
    MaskIdentity(Resident, d, text, 0);
    MaskIdentity(Account, d, text, 0);
    MaskPhoneIdentity(d, text, 0);
  }
}
