/** The title a tab gets when others may have the same one (session_area.cpp). */
module TabTitles {
  import opened Wrappers

  function Digit(n: nat): char
    requires n < 10
  {
    "0123456789"[n]
  }

  function Decimal(n: nat): (s: string)
    ensures s != []
  {
    if n < 10 then [Digit(n)] else Decimal(n / 10) + [Digit(n % 10)]
  }

  lemma DigitsDiffer(a: nat, b: nat)
    requires a < 10 && b < 10 && Digit(a) == Digit(b)
    ensures a == b
  {
  }

  lemma {:induction false} DecimalsDiffer(a: nat, b: nat)
    requires Decimal(a) == Decimal(b)
    ensures a == b
  {
    var s, t := Decimal(a), Decimal(b);
    if a < 10 && b < 10 {
      DigitsDiffer(a, b);
    } else if a >= 10 && b >= 10 {
      assert s[..|s| - 1] == Decimal(a / 10) && t[..|t| - 1] == Decimal(b / 10);
      assert s[|s| - 1] == Digit(a % 10) && t[|t| - 1] == Digit(b % 10);
      DigitsDiffer(a % 10, b % 10);
      DecimalsDiffer(a / 10, b / 10);
    }
  }

  /** The titles tried: the desired one, then with (1), (2), … behind it. */
  function Candidate(desired: string, n: nat): string {
    if n == 0 then desired else desired + " (" + Decimal(n) + ")"
  }

  lemma CandidatesDiffer(desired: string, a: nat, b: nat)
    requires Candidate(desired, a) == Candidate(desired, b)
    ensures a == b
  {
    if a > 0 && b > 0 {
      var s, t := Candidate(desired, a), Candidate(desired, b);
      var from := |desired| + 2;
      assert s[from..|s| - 1] == Decimal(a) && t[from..|t| - 1] == Decimal(b);
      DecimalsDiffer(a, b);
    }
  }

  /** The titles tried before a number; all different. */
  ghost function Tried(desired: string, n: nat): (tried: set<string>) {
    set k | 0 <= k < n :: Candidate(desired, k)
  }

  lemma {:induction false} TriedCount(desired: string, n: nat)
    ensures |Tried(desired, n)| == n
  {
    hide Candidate;
    if n > 0 {
      TriedCount(desired, n - 1);
      forall k | 0 <= k < n - 1 ensures Candidate(desired, k) != Candidate(desired, n - 1) {
        if Candidate(desired, k) == Candidate(desired, n - 1) {
          CandidatesDiffer(desired, k, n - 1);
        }
      }
      assert Tried(desired, n) == Tried(desired, n - 1) + {Candidate(desired, n - 1)};
    }
  }

  lemma {:induction false} FewerTitles(titles: seq<string>)
    ensures |set t | t in titles| <= |titles|
  {
    if titles != [] {
      FewerTitles(titles[1..]);
      assert (set t | t in titles) == (set t | t in titles[1..]) + {titles[0]};
    }
  }

  /** As many titles as were tried are taken already. */
  lemma NoMoreTriesThanTitles(titles: seq<string>, desired: string, n: nat)
    requires forall k | 0 <= k < n :: Candidate(desired, k) in titles
    ensures n <= |titles|
  {
    TriedCount(desired, n);
    FewerTitles(titles);
    SubsetsAreSmaller(Tried(desired, n), set t | t in titles);
  }

  /** The first title tried that no tab has; there is one after at most as many tries as there are tabs. */
  method DisambiguateTitle(titles: seq<string>, desired: string) returns (title: string)
    ensures title !in titles
    ensures exists n: nat | n <= |titles| ::
              title == Candidate(desired, n) && forall k | 0 <= k < n :: Candidate(desired, k) in titles
  {
    title := desired;
    var suffix := 1;
    var titleExists := true;
    while titleExists
      invariant suffix >= 1 && title == Candidate(desired, suffix - 1)
      invariant forall k | 0 <= k < suffix - 1 :: Candidate(desired, k) in titles
      invariant !titleExists ==> title !in titles
      decreases titleExists, |titles| + 1 - suffix
    {
      NoMoreTriesThanTitles(titles, desired, suffix - 1);
      titleExists := false;
      for i := 0 to |titles|
        invariant !titleExists && title !in titles[..i]
      {
        if titles[i] == title {
          titleExists := true;
          title := desired + " (" + Decimal(suffix) + ")";
          suffix := suffix + 1;
          break;
        }
      }
      if titleExists {
        NoMoreTriesThanTitles(titles, desired, suffix - 1);
      }
    }
    NoMoreTriesThanTitles(titles, desired, suffix - 1);
  }

  /** The titles there are determine the number chosen: only one number is free with all before it taken. */
  lemma TheTitleIsUnique(titles: seq<string>, desired: string, n: nat, m: nat)
    requires Candidate(desired, n) !in titles && forall k | 0 <= k < n :: Candidate(desired, k) in titles
    requires Candidate(desired, m) !in titles && forall k | 0 <= k < m :: Candidate(desired, k) in titles
    ensures n == m
  {
  }
}
