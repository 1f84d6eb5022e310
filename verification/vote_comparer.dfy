/** VoteComparer: the order the server sorts revealed votes in. */
module VoteOrder {
  import opened Wrappers
  import Numbers
  import opened Rounds
  import Strings
  import Sorting

  /** The first UTF-16 code unit of a character, which is what a .NET char holds. */
  function FirstCodeUnit(c: char): (u: int)
    ensures 0 <= u < 0x1_0000
    ensures c as int < 0x1_0000 ==> u == c as int
    ensures c as int >= 0x1_0000 ==> 0xD800 <= u < 0xDC00
  {
    if c as int < 0x1_0000 then c as int else 0xD800 + (c as int - 0x1_0000) / 0x400
  }

  /**
   * The integer a vote value sorts by: its Int32.TryParse value, or, when the
   * parse fails or yields 0, the code of its first character plus 1000. The
   * source reads the first character unguarded, so the value must be non-empty.
   */
  function SortKey(value: string): (k: int)
    requires |value| > 0
    ensures Numbers.Int32Min <= k <= Numbers.Int32Max
    ensures Numbers.TryParseInt32(value) == None ==> k >= 1000
    ensures k < 1000 ==> Numbers.TryParseInt32(value) == Some(k)
  {
    match Numbers.TryParseInt32(value)
    case Some(n) => if n != 0 then n else FirstCodeUnit(value[0]) + 1000
    case None => FirstCodeUnit(value[0]) + 1000
  }

  predicate Sortable(votes: seq<Vote>)
  {
    forall i | 0 <= i < |votes| :: |votes[i].value| > 0
  }

  /** The key of a vote; only applied to votes with a non-empty value. */
  function Key(v: Vote): int
  {
    if |v.value| > 0 then SortKey(v.value) else 0
  }

  /** VoteComparer.Compare: the sign of the difference of the two keys. */
  function Compare(x: Vote, y: Vote): (r: int)
    requires |x.value| > 0 && |y.value| > 0
    ensures r in {-1, 0, 1}
    ensures r == 0 <==> SortKey(x.value) == SortKey(y.value)
    ensures r < 0 <==> SortKey(x.value) < SortKey(y.value)
  {
    var xk := SortKey(x.value);
    var yk := SortKey(y.value);
    if xk > yk then 1 else if xk < yk then -1 else 0
  }

  /** Every pair of votes, earlier before later, is in Compare order. */
  predicate InCompareOrder(votes: seq<Vote>)
  {
    forall i, j | 0 <= i < j < |votes| ::
      |votes[i].value| > 0 && |votes[j].value| > 0 && Compare(votes[i], votes[j]) <= 0
  }

  /**
   * List<Vote>.Sort(VoteComparer.Default). The .NET sort is not stable, so the
   * model fixes one arrangement (an insertion sort) and states only what every
   * arrangement the library may produce shares: the same votes, each pair in
   * Compare order.
   */
  function SortVotes(votes: seq<Vote>): (r: seq<Vote>)
    requires Sortable(votes)
    ensures multiset(r) == multiset(votes)
    ensures Sortable(r) && InCompareOrder(r)
  {
    var r := Sorting.SortBy(votes, Key);
    SameVotesSortable(votes, r);
    KeyOrderIsCompareOrder(r);
    r
  }

  /** A rearrangement of votes with non-empty values has non-empty values. */
  lemma SameVotesSortable(votes: seq<Vote>, r: seq<Vote>)
    requires Sortable(votes) && multiset(r) == multiset(votes)
    ensures Sortable(r)
  {
    forall i | 0 <= i < |r|
      ensures |r[i].value| > 0
    {
      assert r[i] in multiset(votes);
      var k :| 0 <= k < |votes| && votes[k] == r[i];
    }
  }

  /** Votes in key order are in Compare order. */
  lemma KeyOrderIsCompareOrder(r: seq<Vote>)
    requires Sortable(r) && Sorting.SortedBy(r, Key)
    ensures InCompareOrder(r)
  {
    forall i, j | 0 <= i < j < |r|
      ensures |r[i].value| > 0 && |r[j].value| > 0 && Compare(r[i], r[j]) <= 0
    {
      assert Key(r[i]) <= Key(r[j]);
    }
  }

  lemma CompareAntisymmetric(x: Vote, y: Vote)
    requires |x.value| > 0 && |y.value| > 0
    ensures Compare(x, y) == -Compare(y, x)
  {
  }

  lemma CompareTransitive(x: Vote, y: Vote, z: Vote)
    requires |x.value| > 0 && |y.value| > 0 && |z.value| > 0
    requires Compare(x, y) <= 0 && Compare(y, z) <= 0
    ensures Compare(x, z) <= 0
  {
  }

  /** Inserting a vote whose (id, name) pair is new keeps the pairs unique, whatever the key. */
  lemma {:induction false} InsertKeepsVotersDistinct(v: Vote, sorted: seq<Vote>, key: Vote -> int)
    requires Sorting.SortedBy(sorted, key)
    requires DistinctVoters(sorted) && !HasVoteFrom(sorted, v.clientId, v.clientName)
    ensures DistinctVoters(Sorting.InsertBy(v, sorted, key))
    decreases |sorted|
  {
    if |sorted| > 0 && key(v) > key(sorted[0]) {
      var h := sorted[0];
      var rest := sorted[1..];
      var tail := Sorting.InsertBy(v, rest, key);
      assert DistinctVoters(rest) by {
        forall i, j | 0 <= i < j < |rest|
          ensures !CastBy(rest[j], rest[i].clientId, rest[i].clientName)
        {
          assert rest[i] == sorted[i + 1] && rest[j] == sorted[j + 1];
        }
      }
      assert !HasVoteFrom(rest, v.clientId, v.clientName) by {
        forall k | 0 <= k < |rest|
          ensures !CastBy(rest[k], v.clientId, v.clientName)
        {
          assert rest[k] == sorted[k + 1];
        }
      }
      InsertKeepsVotersDistinct(v, rest, key);
      forall k | 0 <= k < |tail|
        ensures !CastBy(tail[k], h.clientId, h.clientName)
      {
        Sorting.InsertMembers(v, rest, key, tail[k]);
        if tail[k] != v {
          var m :| 0 <= m < |rest| && rest[m] == tail[k];
          assert sorted[m + 1] == tail[k];
        }
      }
      assert Sorting.InsertBy(v, sorted, key) == [h] + tail;
    }
  }

  lemma {:induction false} SortByKeepsVotersDistinct(votes: seq<Vote>, key: Vote -> int)
    requires DistinctVoters(votes)
    ensures DistinctVoters(Sorting.SortBy(votes, key))
    decreases |votes|
  {
    if |votes| > 0 {
      var rest := Sorting.SortBy(votes[1..], key);
      assert DistinctVoters(votes[1..]) by {
        forall i, j | 0 <= i < j < |votes[1..]|
          ensures !CastBy(votes[1..][j], votes[1..][i].clientId, votes[1..][i].clientName)
        {
          assert votes[1..][i] == votes[i + 1] && votes[1..][j] == votes[j + 1];
        }
      }
      SortByKeepsVotersDistinct(votes[1..], key);
      assert !HasVoteFrom(rest, votes[0].clientId, votes[0].clientName) by {
        forall k | 0 <= k < |rest|
          ensures !CastBy(rest[k], votes[0].clientId, votes[0].clientName)
        {
          assert rest[k] in multiset(votes[1..]);
        }
      }
      InsertKeepsVotersDistinct(votes[0], rest, key);
    }
  }

  /** Sorting keeps every (id, name) pair unique when it was unique before. */
  lemma SortKeepsVotersDistinct(votes: seq<Vote>)
    requires Sortable(votes) && DistinctVoters(votes)
    ensures DistinctVoters(SortVotes(votes))
  {
    SortByKeepsVotersDistinct(votes, Key);
  }

  /** A single non-zero digit sorts by its value. */
  lemma DigitKey(c: char)
    requires '1' <= c <= '9'
    ensures SortKey([c]) == Numbers.DigitValue(c)
  {
    var d := Numbers.DigitValue(c);
    assert Numbers.NatToString(d) == [c];
    Numbers.ParseNatToString(d, "");
    assert Numbers.NatToString(d) + "" == [c];
  }

  /** Any written positive Int32, however many digits, keys to its own value: "13" sorts after "8". */
  lemma NumberKey(n: nat)
    ensures 0 < n <= Numbers.Int32Max ==> SortKey(Numbers.NatToString(n)) == n
  {
    if 0 < n <= Numbers.Int32Max {
      Numbers.ParseNatToString(n, "");
      assert Numbers.NatToString(n) + "" == Numbers.NatToString(n);
    }
  }

  /** "0" parses, but to zero, so it keys by its character like a symbol: after every positive number below 1048. */
  lemma ZeroKey()
    ensures SortKey("0") == FirstCodeUnit('0') + 1000 == 1048
  {
    Numbers.ParseNatToString(0, "");
    assert Numbers.NatToString(0) + "" == "0";
  }

  /** A written negative Int32 keys to its value, so it sorts before every positive card. */
  lemma NegativeKey(n: nat)
    ensures 0 < n <= 0x8000_0000 ==> SortKey("-" + Numbers.NatToString(n)) == -(n as int)
  {
    if 0 < n <= 0x8000_0000 {
      var digits := Numbers.NatToString(n);
      var s := "-" + digits;
      assert s[1..] == digits;
      assert Numbers.IsDigit(s[|s| - 1]);
      Numbers.NumberTextWhole(s);
    }
  }

  /**
   * NUL characters after a written positive number do not change its key: the
   * parser accepts them, so the card keys to the number, not to its first digit.
   */
  lemma NulPaddedNumberKey(n: nat, nuls: string)
    requires forall i | 0 <= i < |nuls| :: Numbers.IsNul(nuls[i])
    ensures 0 < n <= Numbers.Int32Max ==> SortKey(Numbers.NatToString(n) + nuls) == n
  {
    if 0 < n <= Numbers.Int32Max {
      Numbers.NulsAfterNumber(n, nuls);
    }
  }

  /**
   * A token whose first character is neither a digit, a sign nor white space
   * never parses, whatever follows, so it keys by that character plus 1000.
   */
  lemma LeadingSymbolKey(value: string)
    ensures |value| > 0 && !Numbers.IsDigit(value[0]) && value[0] != '+' && value[0] != '-'
            && !Numbers.IsNumberWhiteSpace(value[0])
            ==> SortKey(value) == FirstCodeUnit(value[0]) + 1000
  {
    if |value| > 0 && !Numbers.IsNumberWhiteSpace(value[0]) {
      Numbers.NumberTextStart(value);
    }
  }

  /** A single character that is neither a digit, a sign nor white space sorts after the numbers. */
  lemma SymbolKey(c: char)
    requires !Numbers.IsDigit(c) && c != '+' && c != '-' && !Numbers.IsNumberWhiteSpace(c)
    ensures SortKey([c]) == FirstCodeUnit(c) + 1000
  {
    var s := [c];
    assert Strings.TrimStart(s, Numbers.IsNumberWhiteSpace) == s;
    assert Strings.TrimEnd(s, Numbers.IsNumberWhiteSpace) == s;
  }

  /** Single-digit cards sort by their value: "1" before "2" before "8". */
  lemma DigitsInOrder(x: Vote, y: Vote)
    requires |x.value| == 1 && |y.value| == 1
    requires '1' <= x.value[0] < y.value[0] <= '9'
    ensures Compare(x, y) < 0
  {
    assert x.value == [x.value[0]] && y.value == [y.value[0]];
    DigitKey(x.value[0]);
    DigitKey(y.value[0]);
  }

  /** A single-digit card sorts before a one-character symbol card such as "?" or "½". */
  lemma DigitBeforeSymbol(x: Vote, y: Vote)
    requires |x.value| == 1 && |y.value| == 1
    requires '1' <= x.value[0] <= '9'
    requires !Numbers.IsDigit(y.value[0]) && y.value[0] != '+' && y.value[0] != '-'
    requires !Numbers.IsNumberWhiteSpace(y.value[0])
    ensures Compare(x, y) < 0
  {
    assert x.value == [x.value[0]] && y.value == [y.value[0]];
    DigitKey(x.value[0]);
    SymbolKey(y.value[0]);
  }

  /** Identical vote values always compare equal. */
  lemma SameValueComparesEqual(x: Vote, y: Vote)
    requires |x.value| > 0 && x.value == y.value
    ensures Compare(x, y) == 0
  {
  }
}
