/** Slug allocation for imported components: normalising, and the search for a free numbered variant. */
module Slugs {
  import opened Options
  import Sets

  const SLUG_LIMIT: nat := 100

  // ---------- decimal numbers ----------

  function Digit(d: nat): char
    requires d < 10
  {
    "0123456789"[d]
  }

  function Digits(n: nat): string {
    if n < 10 then [Digit(n)] else Digits(n / 10) + [Digit(n % 10)]
  }

  /** The number that decimal digits stand for. */
  ghost function Value(s: string): int {
    if s == "" then 0 else 10 * Value(s[..|s| - 1]) + (s[|s| - 1] as int - '0' as int)
  }

  lemma {:induction false} DigitsStandForNumber(n: nat)
    ensures Value(Digits(n)) == n
  {
    if n >= 10 {
      DigitsStandForNumber(n / 10);
      assert Digits(n)[..|Digits(n)| - 1] == Digits(n / 10);
    } else {
      assert Digits(n)[..0] == "";
    }
  }

  lemma DigitIsInjective(a: nat, b: nat)
    requires a < 10 && b < 10 && Digit(a) == Digit(b)
    ensures a == b
  {}

  lemma {:induction false} DigitsAreInjective(a: nat, b: nat)
    requires Digits(a) == Digits(b)
    ensures a == b
  {
    var s, t := Digits(a), Digits(b);
    assert s[|s| - 1] == t[|t| - 1];
    DigitIsInjective(a % 10, b % 10);
    if a >= 10 && b >= 10 {
      assert s[..|s| - 1] == Digits(a / 10) && t[..|t| - 1] == Digits(b / 10);
      DigitsAreInjective(a / 10, b / 10);
    }
  }

  lemma {:induction false} LongerNumbersAreLarger(a: nat, b: nat)
    requires a <= b
    ensures |Digits(a)| <= |Digits(b)|
  {
    if a >= 10 {
      LongerNumbersAreLarger(a / 10, b / 10);
    }
  }

  /** A prefix of a number's digits is a number again. */
  lemma {:induction false} DigitsPrefix(n: nat, size: nat) returns (d: nat)
    requires 0 < size <= |Digits(n)| && n > 0
    ensures Digits(d) == Digits(n)[..size] && d > 0
  {
    if size == |Digits(n)| {
      d := n;
    } else {
      d := DigitsPrefix(n / 10, size);
      assert Digits(n)[..|Digits(n)| - 1] == Digits(n / 10);
    }
  }

  // ---------- candidates ----------

  function Truncate(s: string): string {
    if |s| <= SLUG_LIMIT then s else s[..SLUG_LIMIT]
  }

  /** The k-th candidate tried: the slug itself, then the slug numbered from 2 on, cut to the limit. */
  function Candidate(slug: string, k: nat): string {
    if k == 0 then slug else Truncate(slug + "-" + Digits(k + 1))
  }

  predicate HasRoom(slug: string, number: nat) {
    |slug| + 1 + |Digits(number)| <= SLUG_LIMIT
  }

  lemma RoomForSmaller(slug: string, number: nat, smaller: nat)
    requires HasRoom(slug, number) && smaller <= number
    ensures HasRoom(slug, smaller)
  {
    LongerNumbersAreLarger(smaller, number);
  }

  lemma CandidatesDiffer(slug: string, j: nat, k: nat)
    requires j < k && HasRoom(slug, k + 1)
    ensures Candidate(slug, j) != Candidate(slug, k)
  {
    RoomForSmaller(slug, k + 1, j + 1);
    if Candidate(slug, j) == Candidate(slug, k) {
      assert |Candidate(slug, k)| == |slug| + 1 + |Digits(k + 1)|;
      assert j > 0;
      var prefix := slug + "-";
      assert (prefix + Digits(j + 1))[|prefix|..] == Digits(j + 1);
      assert (prefix + Digits(k + 1))[|prefix|..] == Digits(k + 1);
      DigitsAreInjective(j + 1, k + 1);
    }
  }

  ghost function FirstCandidates(slug: string, count: nat): set<string> {
    set k | 0 <= k < count :: Candidate(slug, k)
  }

  lemma {:induction false} CandidateCount(slug: string, count: nat)
    requires HasRoom(slug, count)
    ensures |FirstCandidates(slug, count)| == count
  {
    if count > 0 {
      var last := count - 1;
      RoomForSmaller(slug, count, last);
      CandidateCount(slug, last);
      forall k | 0 <= k < last ensures Candidate(slug, k) != Candidate(slug, last) {
        CandidatesDiffer(slug, k, last);
      }
      assert Candidate(slug, last) !in FirstCandidates(slug, last);
      assert FirstCandidates(slug, count) == FirstCandidates(slug, last) + {Candidate(slug, last)};
    }
  }

  /** With room for the digits of m+1 one of the first m+1 candidates is free, m being the number of taken slugs. */
  lemma SomeCandidateIsFree(slug: string, taken: set<string>) returns (k: nat)
    requires HasRoom(slug, |taken| + 1)
    ensures k <= |taken| && Candidate(slug, k) !in taken
  {
    var count := |taken| + 1;
    CandidateCount(slug, count);
    if FirstCandidates(slug, count) <= taken {
      Sets.SubsetSize(FirstCandidates(slug, count), taken);
      assert false;
    }
    k :| 0 <= k < count && Candidate(slug, k) !in taken;
  }

  /** Whether the number can appear after the dash when only this many digits fit. */
  predicate IsSuffix(d: nat, digits: nat) {
    |Digits(d)| <= digits && (d >= 2 || (d == 1 && digits == 1))
  }

  /** The finitely many different slugs the search can ever try. */
  ghost predicate IsReachable(slug: string, candidate: string) {
    || candidate == slug
    || (|slug| == SLUG_LIMIT - 1 && candidate == slug + "-")
    || (|slug| < SLUG_LIMIT - 1 && exists d: nat :: IsSuffix(d, SLUG_LIMIT - 1 - |slug|) && candidate == slug + "-" + Digits(d))
  }

  lemma CandidateIsReachable(slug: string, k: nat)
    requires |slug| <= SLUG_LIMIT
    ensures IsReachable(slug, Candidate(slug, k))
  {
    if k > 0 && |slug| < SLUG_LIMIT - 1 {
      var room := SLUG_LIMIT - 1 - |slug|;
      if |Digits(k + 1)| <= room {
        assert IsSuffix(k + 1, room);
      } else {
        var d := DigitsPrefix(k + 1, room);
        assert Candidate(slug, k) == slug + "-" + Digits(d);
        if room > 1 {
          assert d >= 2 by { assert |Digits(d)| == room; }
        }
        assert IsSuffix(d, room);
      }
    } else if k > 0 {
      assert Candidate(slug, k) == if |slug| == SLUG_LIMIT then slug else slug + "-";
    }
  }

  lemma ReachableIsCandidate(slug: string, candidate: string) returns (k: nat)
    requires |slug| <= SLUG_LIMIT && IsReachable(slug, candidate)
    ensures Candidate(slug, k) == candidate
  {
    if candidate == slug {
      k := 0;
    } else if |slug| == SLUG_LIMIT - 1 {
      k := 1;
      assert Candidate(slug, 1) == slug + "-";
    } else {
      var d: nat :| IsSuffix(d, SLUG_LIMIT - 1 - |slug|) && candidate == slug + "-" + Digits(d);
      if d >= 2 {
        k := d - 1;
      } else {
        k := 9;
        assert Digits(10) == Digits(1) + [Digit(0)];
        assert Candidate(slug, 9) == slug + "-" + Digits(1);
      }
    }
  }

  /** The search ends exactly when one of these finitely many slugs is free; otherwise it runs forever. */
  lemma SearchEndsExactly(slug: string, taken: set<string>)
    requires |slug| <= SLUG_LIMIT
    ensures (exists k: nat :: Candidate(slug, k) !in taken) <==> (exists c :: IsReachable(slug, c) && c !in taken)
  {
    if exists k: nat :: Candidate(slug, k) !in taken {
      var k: nat :| Candidate(slug, k) !in taken;
      CandidateIsReachable(slug, k);
    }
    if exists c :: IsReachable(slug, c) && c !in taken {
      var c :| IsReachable(slug, c) && c !in taken;
      var k := ReachableIsCandidate(slug, c);
    }
  }

  /** A full-length slug has no other variant: once taken, the search for it never ends. */
  lemma FullLengthSlugHasNoVariant(slug: string, taken: set<string>)
    requires |slug| == SLUG_LIMIT
    ensures (exists k: nat :: Candidate(slug, k) !in taken) <==> slug !in taken
  {
    SearchEndsExactly(slug, taken);
    assert IsReachable(slug, slug);
  }

  /** A stored slug does not count against the component that already owns it. */
  predicate IsTaken(candidate: string, reserved: set<string>, stored: map<string, int>, exclude: Option<int>) {
    candidate in reserved || (candidate in stored && exclude != Some(stored[candidate]))
  }

  ghost function TakenSlugs(reserved: set<string>, stored: map<string, int>, exclude: Option<int>): set<string> {
    set c | c in reserved + stored.Keys && IsTaken(c, reserved, stored, exclude)
  }

  class SlugAllocator {
    var reserved: set<string>
    const stored: map<string, int>

    constructor (reserved: set<string>, stored: map<string, int>)
      ensures this.reserved == reserved && this.stored == stored
    {
      this.reserved, this.stored := reserved, stored;
    }

    /** The precondition is the exact condition under which the search ends at all. */
    method UniqueSlug(slug: string, exclude: Option<int>) returns (candidate: string, ghost tried: nat)
      requires |slug| <= SLUG_LIMIT
      requires exists k: nat :: Candidate(slug, k) !in TakenSlugs(reserved, stored, exclude)
      modifies this
      ensures candidate == Candidate(slug, tried)
      ensures candidate !in old(reserved) && (candidate in stored ==> exclude == Some(stored[candidate]))
      ensures forall k: nat :: k < tried ==>
                Candidate(slug, k) in old(reserved)
                || (Candidate(slug, k) in stored && exclude != Some(stored[Candidate(slug, k)]))
      ensures |candidate| <= SLUG_LIMIT && reserved == old(reserved) + {candidate}
      ensures HasRoom(slug, |TakenSlugs(old(reserved), stored, exclude)| + 1) ==>
                tried <= |TakenSlugs(old(reserved), stored, exclude)|
    {
      ghost var bound: nat :| Candidate(slug, bound) !in TakenSlugs(reserved, stored, exclude);
      ghost var taken := TakenSlugs(reserved, stored, exclude);
      if HasRoom(slug, |taken| + 1) {
        bound := SomeCandidateIsFree(slug, taken);
      }
      candidate := slug;
      var n := 2;
      while IsTaken(candidate, reserved, stored, exclude)
        invariant n >= 2 && n - 2 <= bound && candidate == Candidate(slug, n - 2)
        invariant forall k: nat :: k < n - 2 ==> IsTaken(Candidate(slug, k), reserved, stored, exclude)
        decreases bound - (n - 2)
      {
        assert candidate in taken;
        candidate := Truncate(slug + "-" + Digits(n));
        n := n + 1;
      }
      tried := n - 2;
      reserved := reserved + {candidate};
    }
  }

  // ---------- normalising ----------

  predicate IsAlnum(c: char) {
    'a' <= c <= 'z' || '0' <= c <= '9'
  }

  /** Every run of other characters becomes one dash. The text is already lower-case. */
  function Collapse(s: string): string {
    if s == "" then ""
    else
      var front, c := Collapse(s[..|s| - 1]), s[|s| - 1];
      if IsAlnum(c) then front + [c]
      else if front != "" && front[|front| - 1] == '-' then front
      else front + "-"
  }

  function StripLeft(s: string): string {
    if s != "" && s[0] == '-' then StripLeft(s[1..]) else s
  }

  function StripRight(s: string): string {
    if s != "" && s[|s| - 1] == '-' then StripRight(s[..|s| - 1]) else s
  }

  function Slugify(lowered: string): string {
    var slug := Truncate(StripRight(StripLeft(Collapse(lowered))));
    if slug == "" then "service" else slug
  }

  /** Words of letters and digits joined by single dashes. */
  predicate IsSlug(s: string) {
    && s != "" && s[0] != '-' && s[|s| - 1] != '-'
    && (forall i :: 0 <= i < |s| ==> IsAlnum(s[i]) || s[i] == '-')
    && (forall i :: 0 < i < |s| ==> s[i - 1] != '-' || s[i] != '-')
  }

  predicate IsDashed(s: string) {
    && (forall i :: 0 <= i < |s| ==> IsAlnum(s[i]) || s[i] == '-')
    && (forall i :: 0 < i < |s| ==> s[i - 1] != '-' || s[i] != '-')
  }

  lemma {:induction false} CollapseIsDashed(s: string)
    ensures IsDashed(Collapse(s))
    ensures IsDashed(s) ==> Collapse(s) == s
  {
    if s != "" {
      CollapseIsDashed(s[..|s| - 1]);
      assert s == s[..|s| - 1] + [s[|s| - 1]];
    }
  }

  lemma {:induction false} StripLeftIsDashed(s: string)
    requires IsDashed(s)
    ensures IsDashed(StripLeft(s)) && (StripLeft(s) != "" ==> StripLeft(s)[0] != '-')
  {}

  lemma {:induction false} StripRightIsDashed(s: string)
    requires IsDashed(s) && (s != "" ==> s[0] != '-')
    ensures IsDashed(StripRight(s)) && (StripRight(s) != "" ==> IsSlug(StripRight(s)))
  {}

  /** What `Slugify` returns: only a slug of full length can end in a dash. */
  predicate IsSlugified(s: string) {
    0 < |s| <= SLUG_LIMIT && IsDashed(s) && s[0] != '-' && (|s| < SLUG_LIMIT ==> IsSlug(s))
  }

  lemma CutSlugShape(slug: string)
    requires IsSlug(slug)
    ensures IsSlugified(Truncate(slug))
  {}

  /** The result is never empty, at most 100 long, and only cutting can leave a dash at its end; slugs stay as they are. */
  lemma SlugifyShape(lowered: string)
    ensures IsSlugified(Slugify(lowered))
    ensures IsSlug(lowered) ==> Slugify(lowered) == Truncate(lowered)
  {
    CollapseIsDashed(lowered);
    StripLeftIsDashed(Collapse(lowered));
    StripRightIsDashed(StripLeft(Collapse(lowered)));
    var stripped := StripRight(StripLeft(Collapse(lowered)));
    if stripped != "" {
      CutSlugShape(stripped);
    }
  }

  // ---------- the preferred slug of a new server ----------

  /** The name's slug - with the protocol, if that was added - and the server's id; the result is normalised again. */
  function PreferredNewSlug(base: string, serverId: nat): string {
    Slugify(base + "-dg" + Digits(serverId))
  }

  lemma {:induction false} DigitsAreDigits(n: nat)
    ensures |Digits(n)| > 0 && forall i :: 0 <= i < |Digits(n)| ==> '0' <= Digits(n)[i] <= '9'
  {
    if n >= 10 {
      DigitsAreDigits(n / 10);
    }
  }

  lemma PreferredIsSlug(base: string, serverId: nat)
    requires IsSlug(base)
    ensures PreferredNewSlug(base, serverId) == Truncate(base + "-dg" + Digits(serverId))
  {
    DigitsAreDigits(serverId);
    var s := base + "-dg" + Digits(serverId);
    assert s[|s| - 1] == Digits(serverId)[|Digits(serverId)| - 1];
    assert IsSlug(s);
    SlugifyShape(s);
  }

  /** Normalising a longer text leaves a normalised beginning as it is. */
  lemma {:induction false} CollapseKeepsFront(s: string, t: string)
    requires IsDashed(s)
    ensures |s| <= |Collapse(s + t)| && Collapse(s + t)[..|s|] == s
  {
    if t == "" {
      assert s + t == s;
      CollapseIsDashed(s);
    } else {
      var n := |t| - 1;
      assert (s + t)[..|s + t| - 1] == s + t[..n];
      CollapseKeepsFront(s, t[..n]);
    }
  }

  lemma CollapseEndsIn(s: string)
    requires s != "" && IsAlnum(s[|s| - 1])
    ensures Collapse(s) != "" && Collapse(s)[|Collapse(s)| - 1] == s[|s| - 1]
  {}

  lemma {:induction false} SlugEndsInDigit(base: string, serverId: nat)
    requires IsSlugified(base)
    ensures var collapsed := Collapse(base + "-dg" + Digits(serverId));
            && PreferredNewSlug(base, serverId) == Truncate(collapsed)
            && |base| <= |collapsed| && collapsed[..|base|] == base
  {
    var suffix := "-dg" + Digits(serverId);
    var s := base + suffix;
    assert s == base + "-dg" + Digits(serverId);
    DigitsAreDigits(serverId);
    assert s[|s| - 1] == Digits(serverId)[|Digits(serverId)| - 1];
    CollapseKeepsFront(base, suffix);
    CollapseEndsIn(s);
    assert Collapse(s)[..|base|][0] == base[0];
    assert StripLeft(Collapse(s)) == Collapse(s) && StripRight(Collapse(s)) == Collapse(s);
  }

  /** The id is appended and the result is cut; a base of full length leaves no room for it. */
  lemma PreferredIsCut(base: string, serverId: nat)
    requires IsSlugified(base)
    ensures PreferredNewSlug(base, serverId) == Truncate(base + "-dg" + Digits(serverId))
  {
    if |base| < SLUG_LIMIT {
      PreferredIsSlug(base, serverId);
    } else {
      SlugEndsInDigit(base, serverId);
      assert (base + "-dg" + Digits(serverId))[..SLUG_LIMIT] == base;
    }
  }

  /** Servers with different ids get different slugs, whatever their names, as long as the id is not cut off. */
  lemma DistinctServersDistinctSlugs(base1: string, id1: nat, base2: string, id2: nat)
    requires IsSlugified(base1) && IsSlugified(base2) && id1 != id2
    requires |base1| + 3 + |Digits(id1)| <= SLUG_LIMIT && |base2| + 3 + |Digits(id2)| <= SLUG_LIMIT
    ensures PreferredNewSlug(base1, id1) != PreferredNewSlug(base2, id2)
  {
    PreferredIsCut(base1, id1);
    PreferredIsCut(base2, id2);
    DigitsAreDigits(id1);
    DigitsAreDigits(id2);
    if base1 + "-dg" + Digits(id1) == base2 + "-dg" + Digits(id2) {
      SameNumberPart(base1, Digits(id1), base2, Digits(id2));
      DigitsAreInjective(id1, id2);
    }
  }

  /** The number after the last letter of a numbered slug can be read off. */
  lemma SameNumberPart(base1: string, d1: string, base2: string, d2: string)
    requires forall i :: 0 <= i < |d1| ==> '0' <= d1[i] <= '9'
    requires forall i :: 0 <= i < |d2| ==> '0' <= d2[i] <= '9'
    requires base1 + "-dg" + d1 == base2 + "-dg" + d2
    ensures d1 == d2
  {
    var s, g1, g2 := base1 + "-dg" + d1, |base1| + 2, |base2| + 2;
    assert s[g1] == 'g' && s[g2] == 'g';
    assert forall i :: g1 < i < |s| ==> s[i] == d1[i - g1 - 1];
    assert forall i :: g2 < i < |s| ==> s[i] == d2[i - g2 - 1];
    assert g1 == g2;
    assert s[g1 + 1..] == d1 && s[g2 + 1..] == d2;
  }

  /** The digits of an id that still fit behind the name. */
  function DigitsKept(base: string, serverId: nat): string {
    var room := if |base| + 3 <= SLUG_LIMIT then SLUG_LIMIT - 3 - |base| else 0;
    if |Digits(serverId)| <= room then Digits(serverId) else Digits(serverId)[..room]
  }

  lemma PreferredKeepsDigits(base: string, serverId: nat)
    requires IsSlugified(base)
    ensures PreferredNewSlug(base, serverId) == Truncate(base + "-dg") + DigitsKept(base, serverId)
  {
    PreferredIsCut(base, serverId);
    var s := base + "-dg" + Digits(serverId);
    if |base| + 3 > SLUG_LIMIT {
      assert s[..SLUG_LIMIT] == (base + "-dg")[..SLUG_LIMIT];
    } else if |s| > SLUG_LIMIT {
      assert s[..SLUG_LIMIT] == base + "-dg" + DigitsKept(base, serverId);
    }
  }

  /** Two servers of one name get the same slug exactly when the digits of their ids that still fit are the same. */
  lemma SameNameCollidesExactly(base: string, id1: nat, id2: nat)
    requires IsSlugified(base)
    ensures PreferredNewSlug(base, id1) == PreferredNewSlug(base, id2) <==> DigitsKept(base, id1) == DigitsKept(base, id2)
  {
    PreferredKeepsDigits(base, id1);
    PreferredKeepsDigits(base, id2);
    var front := Truncate(base + "-dg");
    assert (front + DigitsKept(base, id1))[|front|..] == DigitsKept(base, id1);
    assert (front + DigitsKept(base, id2))[|front|..] == DigitsKept(base, id2);
  }

  /** In particular a name of 97 or more characters cuts the whole id off. */
  lemma LongNamesCollide(base: string, id1: nat, id2: nat)
    requires IsSlugified(base) && SLUG_LIMIT - 3 <= |base|
    ensures PreferredNewSlug(base, id1) == PreferredNewSlug(base, id2)
  {
    SameNameCollidesExactly(base, id1, id2);
  }

  ghost predicate IdsStayApart(base: string, last: nat) {
    forall id1: nat, id2: nat :: id1 <= last && id2 <= last && id1 != id2 ==>
      PreferredNewSlug(base, id1) != PreferredNewSlug(base, id2)
  }

  /** Ids up to `last` get different slugs behind one name exactly when the name leaves room for all digits of `last`. */
  lemma NameSeparatesIdsExactly(base: string, last: nat)
    requires IsSlugified(base) && last > 0
    ensures IdsStayApart(base, last) <==> |base| + 3 + |Digits(last)| <= SLUG_LIMIT
  {
    if |base| + 3 + |Digits(last)| <= SLUG_LIMIT {
      forall id1: nat, id2: nat | id1 <= last && id2 <= last && id1 != id2
        ensures PreferredNewSlug(base, id1) != PreferredNewSlug(base, id2)
      {
        LongerNumbersAreLarger(id1, last);
        LongerNumbersAreLarger(id2, last);
        DistinctServersDistinctSlugs(base, id1, base, id2);
      }
    } else {
      // Without its last digit the number still fills the room, or there is none.
      assert DigitsKept(base, last) == DigitsKept(base, last / 10);
      SameNameCollidesExactly(base, last, last / 10);
    }
  }

  /** Distinct servers never collide, whatever their names of at most `size` characters. */
  ghost predicate ServersStayApart(size: nat, last: nat) {
    forall base1, base2, id1: nat, id2: nat ::
      IsSlugified(base1) && IsSlugified(base2) && |base1| <= size && |base2| <= size
      && id1 <= last && id2 <= last && id1 != id2 ==>
        PreferredNewSlug(base1, id1) != PreferredNewSlug(base2, id2)
  }

  lemma LongestName(size: nat) returns (base: string)
    requires 0 < size <= SLUG_LIMIT
    ensures IsSlugified(base) && |base| == size
  {
    base := seq(size, i => 'a');
  }

  /** For all names together: no collision among ids up to `last` exactly when the longest name leaves room for its digits. */
  lemma NamesSeparateServersExactly(size: nat, last: nat)
    requires 0 < size <= SLUG_LIMIT && last > 0
    ensures ServersStayApart(size, last) <==> size + 3 + |Digits(last)| <= SLUG_LIMIT
  {
    if size + 3 + |Digits(last)| <= SLUG_LIMIT {
      forall base1, base2, id1: nat, id2: nat
        | IsSlugified(base1) && IsSlugified(base2) && |base1| <= size && |base2| <= size
          && id1 <= last && id2 <= last && id1 != id2
        ensures PreferredNewSlug(base1, id1) != PreferredNewSlug(base2, id2)
      {
        LongerNumbersAreLarger(id1, last);
        LongerNumbersAreLarger(id2, last);
        DistinctServersDistinctSlugs(base1, id1, base2, id2);
      }
    } else {
      var base := LongestName(size);
      NameSeparatesIdsExactly(base, last);
    }
  }

  // ---------- importing two new servers ----------

  /** The search normalises the preferred slug once more. */
  function SearchSlug(base: string, serverId: nat): string {
    Slugify(PreferredNewSlug(base, serverId))
  }

  ghost predicate SearchEnds(slug: string, taken: set<string>) {
    exists k: nat :: Candidate(slug, k) !in taken
  }

  /** Normalising again only removes a dash that cutting left at the end. */
  lemma SlugifyAgain(slug: string)
    requires IsSlugified(slug)
    ensures Slugify(slug) == if slug[|slug| - 1] == '-' then slug[..SLUG_LIMIT - 1] else slug
    ensures slug[|slug| - 1] == '-' ==> |slug| == SLUG_LIMIT
  {
    CollapseIsDashed(slug);
    assert StripLeft(slug) == slug;
    if slug[|slug| - 1] == '-' {
      var front := slug[..|slug| - 1];
      assert slug[|slug| - 2] != '-';
      assert StripRight(front) == front && StripRight(slug) == front;
    }
  }

  /** Slugs searched for two servers can agree only when an id was cut off. */
  lemma EqualSearchesAreLong(base1: string, id1: nat, base2: string, id2: nat)
    requires IsSlugified(base1) && IsSlugified(base2) && id1 != id2
    requires SearchSlug(base1, id1) == SearchSlug(base2, id2)
    ensures |SearchSlug(base1, id1)| >= SLUG_LIMIT - 1
  {
    SlugifyShape(base1 + "-dg" + Digits(id1));
    SlugifyShape(base2 + "-dg" + Digits(id2));
    SlugifyAgain(PreferredNewSlug(base1, id1));
    SlugifyAgain(PreferredNewSlug(base2, id2));
    if |SearchSlug(base1, id1)| < SLUG_LIMIT - 1 {
      PreferredIsCut(base1, id1);
      PreferredIsCut(base2, id2);
      DistinctServersDistinctSlugs(base1, id1, base2, id2);
    }
  }

  /** The variants of a slug that leaves no room for a number. */
  lemma LongSlugEndsExactly(slug: string, taken: set<string>)
    requires SLUG_LIMIT - 1 <= |slug| <= SLUG_LIMIT
    ensures SearchEnds(slug, taken) <==> slug !in taken || (|slug| == SLUG_LIMIT - 1 && slug + "-" !in taken)
  {
    SearchEndsExactly(slug, taken);
    assert IsReachable(slug, slug);
    if |slug| == SLUG_LIMIT - 1 {
      assert IsReachable(slug, slug + "-");
    }
  }

  /**
   One import of two new servers whose own slugs are free. The first one takes its slug; the search for the second one
   ends, and with it the import, exactly when its slug is another one, or has 99 characters and a free variant.
   */
  lemma SecondSearchEndsExactly(base1: string, id1: nat, base2: string, id2: nat, taken: set<string>)
    requires IsSlugified(base1) && IsSlugified(base2) && id1 != id2
    requires SearchSlug(base1, id1) !in taken && SearchSlug(base2, id2) !in taken
    ensures var first, second := SearchSlug(base1, id1), SearchSlug(base2, id2);
            && Candidate(first, 0) == first
            && (SearchEnds(second, taken + {first}) <==>
                  first != second || (|second| == SLUG_LIMIT - 1 && second + "-" !in taken))
  {
    var first, second := SearchSlug(base1, id1), SearchSlug(base2, id2);
    if first == second {
      SlugifyShape(PreferredNewSlug(base2, id2));
      EqualSearchesAreLong(base1, id1, base2, id2);
      LongSlugEndsExactly(second, taken + {first});
      assert |second + "-"| != |first|;
    } else {
      assert Candidate(second, 0) !in taken + {first};
    }
  }

  /** For one name of at most 98 characters: exactly when the digits of the two ids that still fit differ. */
  lemma SameNameReturnsExactly(base: string, id1: nat, id2: nat, taken: set<string>)
    requires IsSlugified(base) && |base| <= SLUG_LIMIT - 2 && id1 != id2
    requires SearchSlug(base, id1) !in taken && SearchSlug(base, id2) !in taken
    ensures SearchEnds(SearchSlug(base, id2), taken + {SearchSlug(base, id1)}) <==> DigitsKept(base, id1) != DigitsKept(base, id2)
  {
    SearchedAsPreferred(base, id1);
    SearchedAsPreferred(base, id2);
    SameNameCollidesExactly(base, id1, id2);
    SecondSearchEndsExactly(base, id1, base, id2, taken);
    if PreferredNewSlug(base, id1) == PreferredNewSlug(base, id2) {
      CollisionIsFull(base, id1, id2);
    }
  }

  lemma SearchedAsPreferred(base: string, serverId: nat)
    requires IsSlugified(base) && |base| <= SLUG_LIMIT - 2
    ensures SearchSlug(base, serverId) == PreferredNewSlug(base, serverId)
  {
    var s := base + "-dg" + Digits(serverId);
    SlugifyShape(s);
    PreferredIsCut(base, serverId);
    DigitsAreDigits(serverId);
    var slug := PreferredNewSlug(base, serverId);
    assert forall i :: |base| < i < |s| ==> s[i] != '-';
    assert slug[|slug| - 1] == s[|slug| - 1];
    SlugifyAgain(slug);
  }

  lemma CollisionIsFull(base: string, id1: nat, id2: nat)
    requires IsSlugified(base) && |base| <= SLUG_LIMIT - 2 && id1 != id2
    requires PreferredNewSlug(base, id1) == PreferredNewSlug(base, id2)
    ensures |PreferredNewSlug(base, id1)| == SLUG_LIMIT
  {
    PreferredIsCut(base, id1);
    PreferredIsCut(base, id2);
    if |PreferredNewSlug(base, id1)| < SLUG_LIMIT {
      DistinctServersDistinctSlugs(base, id1, base, id2);
    }
  }
}
