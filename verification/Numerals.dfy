/** Decimal printing: strconv.Itoa, and fmt.Sprintf with a zero-padded width. */
module Decimal {

  function DigitChar(d: int): (c: char)
    requires 0 <= d <= 9
    ensures '0' <= c <= '9' && c as int == '0' as int + d
  {
    ('0' as int + d) as char
  }

  predicate IsDigits(s: string) {
    forall i :: 0 <= i < |s| ==> '0' <= s[i] <= '9'
  }

  function Digits(n: nat): (s: string)
    ensures |s| > 0 && IsDigits(s)
  {
    if n < 10 then [DigitChar(n)] else Digits(n / 10) + [DigitChar(n % 10)]
  }

  /** strconv.Itoa */
  function Itoa(n: int): (s: string) {
    if n < 0 then "-" + Digits(-n) else Digits(n)
  }

  function Zeros(k: nat): (s: string)
    ensures |s| == k && IsDigits(s)
  {
    if k == 0 then "" else "0" + Zeros(k - 1)
  }

  /** fmt.Sprintf with the verb %0<width>d, for numbers that are not negative. */
  function Padded(n: nat, width: nat): (s: string)
    ensures |s| >= width && IsDigits(s)
  {
    var digits := Digits(n);
    if |digits| >= width then digits else Zeros(width - |digits|) + digits
  }

  /** The decoder. */
  function Number(s: string): (n: nat)
    requires IsDigits(s)
  {
    if |s| == 0 then 0
    else 10 * Number(s[..|s| - 1]) + (s[|s| - 1] as int - '0' as int)
  }

  function ParseInt(s: string): (n: int)
    requires |s| > 0 && IsDigits(if s[0] == '-' then s[1..] else s)
  {
    if s[0] == '-' then 0 - Number(s[1..]) else Number(s)
  }

  function Pow10(k: nat): (p: nat) {
    if k == 0 then 1 else 10 * Pow10(k - 1)
  }

  lemma {:induction false} NumberOfDigits(n: nat)
    ensures Number(Digits(n)) == n
  {
    var s := Digits(n);
    if n < 10 {
      assert s[..0] == "";
    } else {
      NumberOfDigits(n / 10);
      assert s[..|s| - 1] == Digits(n / 10);
    }
  }

  lemma {:induction false} LeadingZeros(k: nat, s: string)
    requires IsDigits(s)
    ensures Number(Zeros(k) + s) == Number(s)
    decreases |s|
  {
    if |s| == 0 {
      assert Zeros(k) + s == Zeros(k);
      ZerosAreZero(k);
    } else {
      var t := Zeros(k) + s;
      assert t[..|t| - 1] == Zeros(k) + s[..|s| - 1];
      LeadingZeros(k, s[..|s| - 1]);
    }
  }

  lemma {:induction false} ZerosAreZero(k: nat)
    ensures Number(Zeros(k)) == 0
  {
    if k > 0 {
      ZerosEnd(k);
      ZerosAreZero(k - 1);
    }
  }

  lemma {:induction false} ZerosEnd(k: nat)
    requires k > 0
    ensures Zeros(k) == Zeros(k - 1) + "0"
  {
    if k > 1 {
      ZerosEnd(k - 1);
    }
  }

  /** Padding does not change the number printed, so printing is injective at every width. */
  lemma NumberOfPadded(n: nat, width: nat)
    ensures Number(Padded(n, width)) == n
  {
    NumberOfDigits(n);
    hide Digits, Number, Zeros;
    if |Digits(n)| < width {
      LeadingZeros(width - |Digits(n)|, Digits(n));
    }
  }

  lemma ParseIntOfItoa(n: int)
    ensures var s := Itoa(n);
            |s| > 0 && IsDigits(if s[0] == '-' then s[1..] else s) && ParseInt(s) == n
  {
    if n < 0 {
      NumberOfDigits(-n);
      assert Itoa(n)[1..] == Digits(-n);
    } else {
      NumberOfDigits(n);
    }
  }

  lemma {:induction false} DigitsFit(n: nat, width: nat)
    requires width >= 1
    ensures |Digits(n)| <= width <==> n < Pow10(width)
    decreases width
  {
    if width == 1 {
      assert Pow10(1) == 10 * Pow10(0);
    } else if n >= 10 {
      DigitsFit(n / 10, width - 1);
    } else {
      TenFits(width);
    }
  }

  lemma {:induction false} TenFits(width: nat)
    requires width >= 1
    ensures Pow10(width) >= 10
  {
    if width > 1 {
      TenFits(width - 1);
    }
  }
}

/** The identifiers that Redis counters generate, and the cache keys built from them. */
module Identifiers {
  import opened Decimal

  const USER_INFO_PREFIX := "USER_INFO:"
  const USER_TOKEN_PREFIX := "USER_TOKEN:"
  const GENERATE_USER_ID_KEY := "GENERATE_USER_ID_KEY"
  const GENERATE_MEETING_ID_KEY := "GENERATE_MEETING_ID_KEY"

  function MeetingID(index: nat): (id: string) {
    Padded(index, 9)
  }

  function UserID(index: nat): (id: string) {
    Padded(index, 8)
  }

  /** One prefix serves users, accounts and meetings alike. */
  function InfoKey(id: string): (key: string) {
    USER_INFO_PREFIX + id
  }

  function TokenKey(userID: string): (key: string) {
    USER_TOKEN_PREFIX + userID
  }

  /** Whatever names users choose, documents, tokens and the two counters never fall on one key of Redis. */
  lemma KeysApart(name: string, userID: string)
    ensures InfoKey(name) != TokenKey(userID)
    ensures InfoKey(name) !in {GENERATE_USER_ID_KEY, GENERATE_MEETING_ID_KEY}
    ensures TokenKey(userID) !in {GENERATE_USER_ID_KEY, GENERATE_MEETING_ID_KEY}
  {
    assert InfoKey(name)[5] == 'I' && TokenKey(userID)[5] == 'T';
    assert InfoKey(name)[0] == TokenKey(userID)[0] == 'U';
    assert GENERATE_USER_ID_KEY[0] == GENERATE_MEETING_ID_KEY[0] == 'G';
  }

  lemma MeetingIDInjective(m: nat, n: nat)
    ensures MeetingID(m) == MeetingID(n) ==> m == n
  {
    NumberOfPadded(m, 9);
    NumberOfPadded(n, 9);
  }

  lemma UserIDInjective(m: nat, n: nat)
    ensures UserID(m) == UserID(n) ==> m == n
  {
    NumberOfPadded(m, 8);
    NumberOfPadded(n, 8);
  }

  lemma InfoKeyInjective(a: string, b: string)
    ensures InfoKey(a) == InfoKey(b) <==> a == b
  {
    assert InfoKey(a)[|USER_INFO_PREFIX|..] == a;
    assert InfoKey(b)[|USER_INFO_PREFIX|..] == b;
  }

  lemma {:induction false} HundredMillion()
    ensures Pow10(8) == 100_000_000
  {
    assert Pow10(1) == 10 && Pow10(2) == 100 && Pow10(3) == 1000 && Pow10(4) == 10000;
    assert Pow10(5) == 100000 && Pow10(6) == 1000000 && Pow10(7) == 10000000;
  }

  /**
   A generated user and a generated meeting fall on the same cache key exactly when both counters stand at the
   same value and that value is at least 10^8, the first one that eight digits cannot hold.
   */
  lemma UserMeetsMeetingIff(u: nat, m: nat)
    ensures InfoKey(UserID(u)) == InfoKey(MeetingID(m)) <==> u == m && u >= 100_000_000
  {
    InfoKeyInjective(UserID(u), MeetingID(m));
    NumberOfPadded(u, 8);
    NumberOfPadded(m, 9);
    DigitsFit(u, 8);
    HundredMillion();
  }
}

/** Cell references of a worksheet in A1 style (ECMA-376 Part 1, section 18.18.7). */
module Spreadsheet {
  import opened Options
  import opened Decimal

  predicate IsColumn(s: string) {
    forall i :: 0 <= i < |s| ==> 'A' <= s[i] <= 'Z'
  }

  function Letter(k: int): (c: char)
    requires 1 <= k <= 26
    ensures 'A' <= c <= 'Z' && c as int == 'A' as int + k - 1
  {
    ('A' as int + k - 1) as char
  }

  /** The table `slices`: the empty string, then the 26 letters. */
  function Slices(k: int): (s: string)
    requires 0 <= k <= 26
  {
    if k == 0 then "" else [Letter(k)]
  }

  /** Bijective base 26: the digits run from 1 to 26 and there is no zero. */
  function Column(n: nat): (s: string)
    ensures IsColumn(s) && (n > 0 ==> |s| > 0)
  {
    if n == 0 then "" else Column((n - 1) / 26) + [Letter((n - 1) % 26 + 1)]
  }

  function ColumnNumber(s: string): (n: nat)
    requires IsColumn(s)
  {
    if |s| == 0 then 0
    else 26 * ColumnNumber(s[..|s| - 1]) + (s[|s| - 1] as int - 'A' as int + 1)
  }

  /** What the final loop of Num2AZ spells: the entries of `temp`, last one first. */
  function Spell(temp: seq<int>): (s: string)
    requires forall i :: 0 <= i < |temp| ==> 0 <= temp[i] <= 26
  {
    if |temp| == 0 then "" else Slices(temp[|temp| - 1]) + Spell(temp[..|temp| - 1])
  }

  lemma {:induction false} SlicesAreColumns(k: int)
    requires 0 <= k <= 26
    ensures Slices(k) == Column(k)
  {
  }

  /** The last letter of a column, and what comes before it. */
  lemma {:induction false} SplitColumn(n: int, k: int)
    requires n > 26 && k == (if n % 26 == 0 then 26 else n % 26)
    ensures (n - k) / 26 >= 1 && Column(n) == Column((n - k) / 26) + Slices(k)
  {
    LastDigit(n, k);
    hide Letter;
  }

  lemma {:induction false} LastDigit(n: int, k: int)
    requires n > 26 && k == (if n % 26 == 0 then 26 else n % 26)
    ensures (n - k) / 26 >= 1 && (n - k) / 26 == (n - 1) / 26 && k == (n - 1) % 26 + 1
  {
    assert n == 26 * (n / 26) + n % 26;
  }

  lemma {:induction false} SpellOneMore(temp: seq<int>, k: int)
    requires 0 <= k <= 26 && forall i :: 0 <= i < |temp| ==> 0 <= temp[i] <= 26
    ensures Spell(temp + [k]) == Slices(k) + Spell(temp)
  {
    assert (temp + [k])[..|temp|] == temp;
  }

  method Num2AZ(num: nat) returns (str: string)
    ensures str == Column(num)
  {
    hide Column, Spell, Slices, Letter;
    str := "";
    if num > 26 {
      var n: int := num;
      var temp: seq<int> := [];
      assert Spell([]) == "" by {
        SpellNothing();
      }
      while true
        invariant n > 26
        invariant forall i :: 0 <= i < |temp| ==> 0 <= temp[i] <= 26
        invariant Column(num) == Column(n) + Spell(temp)
        decreases n
      {
        var k := n % 26;
        SplitColumn(n, if k == 0 then 26 else k);
        SpellOneMore(temp, if k == 0 then 26 else k);
        if k == 0 {
          temp := temp + [26];
          k := 26;
        } else {
          temp := temp + [k];
        }
        n := (n - k) / 26;
        if n <= 26 {
          SlicesAreColumns(n);
          SpellOneMore(temp, n);
          temp := temp + [n];
          break;
        }
      }
      SpellNothing();
      for i := 0 to |temp|
        invariant str == Spell(temp[..i])
      {
        SpellOneMore(temp[..i], temp[i]);
        assert temp[..i] + [temp[i]] == temp[..i + 1];
        str := Slices(temp[i]) + str;
      }
      assert temp[..|temp|] == temp;
    } else {
      SlicesAreColumns(num);
      return Slices(num);
    }
  }

  lemma SpellNothing()
    ensures Spell([]) == ""
  {
  }

  method GetAxis(x: nat, y: int) returns (axis: string)
    ensures axis == Axis(x, y)
  {
    var column := Num2AZ(x);
    axis := column + Itoa(y);
  }

  function Axis(x: nat, y: int): (s: string) {
    Column(x) + Itoa(y)
  }

  // ---- Column is a bijection from the numbers from 1 on to the non-empty words over A to Z ----

  lemma {:induction false} NumberOfColumn(n: nat)
    ensures ColumnNumber(Column(n)) == n
  {
    if n > 0 {
      var s := Column(n);
      assert s[..|s| - 1] == Column((n - 1) / 26);
      NumberOfColumn((n - 1) / 26);
    }
  }

  lemma {:induction false} ColumnOfNumber(s: string)
    requires IsColumn(s)
    ensures Column(ColumnNumber(s)) == s
    ensures |s| > 0 ==> ColumnNumber(s) >= 1
  {
    if |s| > 0 {
      var last := s[|s| - 1] as int - 'A' as int + 1;
      ColumnOfNumber(s[..|s| - 1]);
      var n := ColumnNumber(s);
      assert (n - 1) / 26 == ColumnNumber(s[..|s| - 1]) && (n - 1) % 26 + 1 == last;
      assert s == s[..|s| - 1] + [s[|s| - 1]];
    }
  }

  // ---- it preserves the order: shorter first, then alphabetically ----

  ghost predicate DiffersFirstAt(s: string, t: string, i: nat) {
    i < |s| && i < |t| && s[..i] == t[..i] && s[i] < t[i]
  }

  ghost predicate ComesBefore(s: string, t: string) {
    |s| < |t| || (|s| == |t| && exists i: nat :: DiffersFirstAt(s, t, i))
  }

  lemma {:induction false} ComesBeforeIsAsymmetric(s: string, t: string)
    requires ComesBefore(s, t)
    ensures !ComesBefore(t, s)
  {
    if |s| == |t| {
      var i: nat :| DiffersFirstAt(s, t, i);
      forall j: nat ensures !DiffersFirstAt(t, s, j) {
        if j < i {
          assert s[..i][j] == s[j] && t[..i][j] == t[j];
        } else if i < j && j < |s| {
          assert s[..j][i] == s[i] && t[..j][i] == t[i];
        }
      }
    }
  }

  lemma AppendKeepsOrder(s: string, t: string, x: char, y: char)
    ensures ComesBefore(s, t) ==> ComesBefore(s + [x], t + [y])
    ensures s == t && x < y ==> ComesBefore(s + [x], t + [y])
  {
    if s == t && x < y {
      assert (s + [x])[..|s|] == s;
      assert DiffersFirstAt(s + [x], t + [y], |s|);
    } else if ComesBefore(s, t) && |s| == |t| {
      var i: nat :| DiffersFirstAt(s, t, i);
      assert (s + [x])[..i] == s[..i] && (t + [y])[..i] == t[..i];
      assert DiffersFirstAt(s + [x], t + [y], i);
    }
  }

  lemma {:induction false} ColumnsIncrease(a: nat, b: nat)
    requires a < b
    ensures ComesBefore(Column(a), Column(b))
  {
    if a > 0 {
      var s, t := Column((a - 1) / 26), Column((b - 1) / 26);
      if (a - 1) / 26 < (b - 1) / 26 {
        ColumnsIncrease((a - 1) / 26, (b - 1) / 26);
      }
      AppendKeepsOrder(s, t, Letter((a - 1) % 26 + 1), Letter((b - 1) % 26 + 1));
      hide ComesBefore;
    }
  }

  lemma {:induction false} ColumnOrderIff(a: nat, b: nat)
    ensures a < b <==> ComesBefore(Column(a), Column(b))
  {
    if a < b {
      ColumnsIncrease(a, b);
    } else if b < a {
      ColumnsIncrease(b, a);
      ComesBeforeIsAsymmetric(Column(b), Column(a));
    } else if ComesBefore(Column(a), Column(a)) {
      ComesBeforeIsAsymmetric(Column(a), Column(a));
      assert false;
    }
  }

  // ---- a cell reference determines its cell ----

  /** How many letters the reference starts with. */
  function LetterCount(s: string): (n: nat)
    ensures n <= |s| && IsColumn(s[..n])
    ensures n < |s| ==> !('A' <= s[n] <= 'Z')
  {
    if |s| == 0 || !('A' <= s[0] <= 'Z') then 0 else 1 + LetterCount(s[1..])
  }

  lemma {:induction false} LettersThenNumber(column: string, row: string)
    requires IsColumn(column) && |row| > 0 && !('A' <= row[0] <= 'Z')
    ensures LetterCount(column + row) == |column|
  {
    if |column| == 0 {
      assert column + row == row;
    } else {
      assert (column + row)[1..] == column[1..] + row;
      LettersThenNumber(column[1..], row);
    }
  }

  function ParseAxis(s: string): (cell: Option<(nat, int)>) {
    var n := LetterCount(s);
    var row := s[n..];
    if |row| > 0 && IsDigits(if row[0] == '-' then row[1..] else row)
    then Some((ColumnNumber(s[..n]), ParseInt(row)))
    else None
  }

  lemma ParseAxisOfAxis(x: nat, y: int)
    ensures ParseAxis(Axis(x, y)) == Some((x, y))
  {
    NumberOfColumn(x);
    ParseIntOfItoa(y);
    LettersThenNumber(Column(x), Itoa(y));
    assert Axis(x, y)[..|Column(x)|] == Column(x);
    assert Axis(x, y)[|Column(x)|..] == Itoa(y);
  }
}
