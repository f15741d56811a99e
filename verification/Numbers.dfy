/** Number printing and reading (swis.c): OS_ConvertCardinal1 to 4 and OS_ConvertHex1 to 8 write
    characters through r1 while r2 counts the room that is left, and OS_ReadUnsigned reads them
    back. */
module Numbers {
  import opened Words

  const BAD_BASE := 0x16a
  const BAD_NUMBER := 0x16b
  const TOO_BIG := 0x16c

  // ---- digits ----

  /** The value of a character as a digit of some base, or -1. */
  function Value(d: char): (n: int)
    ensures -1 <= n < 36
  {
    if '0' <= d <= '9' then d as int - '0' as int
    else if 'a' <= d <= 'z' then d as int - 'a' as int + 10
    else if 'A' <= d <= 'Z' then d as int - 'A' as int + 10
    else -1
  }

  function Digit(n: nat): (d: char)
    requires n < 36
    ensures Value(d) == n
  {
    if n < 10 then ('0' as int + n) as char else ('a' as int + n - 10) as char
  }

  /** The digits that are written are lower case. */
  lemma DigitsAre(n: nat)
    requires n < 16
    ensures Digit(n) == "0123456789abcdef"[n]
  {
  }

  /** Digits are read in either case. */
  lemma ValuesAre(d: char, n: nat)
    requires n < 36
    ensures Value(d) == n <==>
              if n < 10 then d as int == '0' as int + n
              else d as int == 'a' as int + (n - 10) || d as int == 'A' as int + (n - 10)
  {
  }

  function Decimal(n: nat): seq<char> {
    (if n / 10 > 0 then Decimal(n / 10) else []) + [Digit(n % 10)]
  }

  /** n >> 4 * i. */
  function Shifted(n: nat, i: nat): nat {
    if i == 0 then n else Shifted(n, i - 1) / 16
  }

  /** The lowest digits of n, in base 16. */
  function Hex(n: nat, digits: nat): (s: seq<char>)
    ensures |s| == digits
  {
    if digits == 0 then [] else Hex(n / 16, digits - 1) + [Digit(n % 16)]
  }

  /** One digit more. */
  function Push(before: nat, base: nat, digit: nat): (n: nat)
    ensures base >= 1 ==> n >= before
  {
    assert base >= 1 ==> before * base >= before;
    before * base + digit
  }

  /** The number that the digits continue, after what has been read so far. */
  function NumberAfter(before: nat, s: seq<char>, base: nat): nat
    requires forall i | 0 <= i < |s| :: 0 <= Value(s[i])
    decreases |s|
  {
    if s == [] then before else NumberAfter(Push(before, base, Value(s[0])), s[1..], base)
  }

  lemma {:induction false} NumberAfterMore(before: nat, s: seq<char>, d: char, base: nat)
    requires (forall i | 0 <= i < |s| :: 0 <= Value(s[i])) && 0 <= Value(d)
    ensures NumberAfter(before, s + [d], base) == Push(NumberAfter(before, s, base), base, Value(d))
    decreases |s|
  {
    if s == [] {
      assert [d][1..] == [];
    } else {
      assert (s + [d])[1..] == s[1..] + [d];
      NumberAfterMore(Push(before, base, Value(s[0])), s[1..], d, base);
    }
  }

  predicate AreDigits(s: seq<char>, base: nat) {
    forall i | 0 <= i < |s| :: 0 <= Value(s[i]) < base
  }

  lemma {:induction false} DecimalIsNumber(n: nat)
    ensures AreDigits(Decimal(n), 10) && NumberAfter(0, Decimal(n), 10) == n
  {
    if n / 10 > 0 {
      DecimalIsNumber(n / 10);
      NumberAfterMore(0, Decimal(n / 10), Digit(n % 10), 10);
    } else {
      assert NumberAfter(n, [Digit(n)][1..], 10) == n;
    }
  }

  lemma {:induction false} DecimalLength(n: nat, digits: nat)
    requires digits > 0 && n < Pow10(digits)
    ensures 1 <= |Decimal(n)| <= digits
  {
    if n / 10 > 0 {
      DecimalLength(n / 10, digits - 1);
    }
  }

  function Pow10(k: nat): nat {
    if k == 0 then 1 else 10 * Pow10(k - 1)
  }

  function Pow16(k: nat): (p: nat)
    ensures p > 0
  {
    if k == 0 then 1 else 16 * Pow16(k - 1)
  }

  lemma LowDigits(n: nat, p: nat)
    requires p > 0
    ensures n % (16 * p) == n / 16 % p * 16 + n % 16
  {
    var q, r := n / 16 / p, n / 16 % p;
    assert n / 16 == q * p + r;
    assert n == q * (16 * p) + (r * 16 + n % 16);
    ModUnique(q, 16 * p, r * 16 + n % 16, n);
  }

  lemma {:induction false} HexIsNumber(n: nat, digits: nat)
    ensures AreDigits(Hex(n, digits), 16) && NumberAfter(0, Hex(n, digits), 16) == n % Pow16(digits)
  {
    if digits > 0 {
      HexIsNumber(n / 16, digits - 1);
      NumberAfterMore(0, Hex(n / 16, digits - 1), Digit(n % 16), 16);
      LowDigits(n, Pow16(digits - 1));
    }
  }

  // ---- writing ----

  type Memory = m: seq<char> | |m| == WORD_SIZE witness seq(WORD_SIZE, _ => '\0')

  /** The registers and the memory that a conversion works on; ok turns false when it has reported
      that the buffer is full. */
  datatype Output = Output(memory: Memory, r1: word, r2: word, ok: bool)

  /** write_converted_character, after which a failed conversion writes no more. */
  function Put(o: Output, c: char): Output {
    if o.ok then Output(o.memory[o.r1 := c], Add(o.r1, 1), Sub(o.r2, 1), Sub(o.r2, 1) != 0) else o
  }

  function PutAll(o: Output, s: seq<char>): Output
    decreases |s|
  {
    if s == [] then o else PutAll(Put(o, s[0]), s[1..])
  }

  lemma {:induction false} PutAllMore(o: Output, s: seq<char>, t: seq<char>)
    ensures PutAll(o, s + t) == PutAll(PutAll(o, s), t)
    decreases |s|
  {
    if s == [] {
      assert s + t == t;
    } else {
      assert (s + t)[0] == s[0] && (s + t)[1..] == s[1..] + t;
      PutAllMore(Put(o, s[0]), s[1..], t);
    }
  }

  lemma {:induction false} FailedStays(o: Output, s: seq<char>)
    requires !o.ok
    ensures PutAll(o, s) == o
  {
    if s != [] {
      FailedStays(o, s[1..]);
    }
  }

  /** How many of the characters are written: a room of 0 is as good as 4 GiB. */
  function Written(s: seq<char>, room: word): nat {
    if room == 0 || room > |s| then |s| else room
  }

  /** The characters go to memory in order and nothing else does; they all do, without an error, if
      and only if there is room for one character more. */
  lemma {:induction false} PutAllEffect(o: Output, s: seq<char>, i: word)
    requires o.ok && |s| < WORD_SIZE
    ensures var r, k := PutAll(o, s), Written(s, o.r2);
            && (r.ok <==> o.r2 == 0 || o.r2 > |s|)
            && r.r1 == Add(o.r1, k) && r.r2 == Sub(o.r2, k)
            && r.memory[Add(o.r1, i)] == if i < k then s[i] else o.memory[Add(o.r1, i)]
    decreases |s|
  {
    if s != [] {
      var o1 := Put(o, s[0]);
      var j := Sub(i, 1);
      assert Add(o1.r1, j) == Add(o.r1, i);
      if o1.ok {
        PutAllEffect(o1, s[1..], j);
      } else {
        FailedStays(o1, s[1..]);
      }
    }
  }

  /** What convert_decimal leaves: the terminator is written without counting it. */
  function Printed(o: Output, s: seq<char>): Output {
    var r := PutAll(o, s);
    if r.ok then r.(memory := r.memory[r.r1 := '\0']) else r
  }

  /** Where that leaves memory and registers: r1 is at the terminator, and r2 has not counted it. */
  lemma PrintedEffect(o: Output, s: seq<char>, i: word)
    requires o.ok && |s| < WORD_SIZE
    ensures var r, k, fits := Printed(o, s), Written(s, o.r2), o.r2 == 0 || o.r2 > |s|;
            && r.ok == fits
            && r.r1 == Add(o.r1, k) && r.r2 == Sub(o.r2, k)
            && r.memory[Add(o.r1, i)] == if i < k then s[i] else if fits && i == |s| then '\0' else o.memory[Add(o.r1, i)]
  {
    PutAllEffect(o, s, i);
    hide PutAll;
  }

  /** The digits from the i-th on start the whole number. */
  lemma {:induction false} HexStarts(n: nat, i: nat, digits: nat)
    requires i <= digits
    ensures Hex(n, digits)[..digits - i] == Hex(Shifted(n, i), digits - i)
  {
    if i > 0 {
      HexStarts(n, i - 1, digits);
    }
  }

  // ---- reading ----

  /** Either a number and where it ends, or the number of the error. */
  datatype Result = Read(end: nat, value: word) | Fail(error: nat)

  function Base(r0: word): nat {
    if 2 <= r0 % 128 <= 36 then r0 % 128 else 10
  }

  function Limit(r0: word, r2: word): word {
    if HasFlag(r0, 0x2000_0000) then r2 else if HasFlag(r0, 0x4000_0000) then 0xff else 0xffff_ffff
  }

  /** The base is in the low seven bits of r0, 10 if these are no base; bit 29 says that r2 is the
      limit, bit 30 that it is one byte. */
  lemma BaseAndLimitAre(r0: word, r2: word)
    ensures var low := BitAnd(r0, 0x7f); Base(r0) == if low < 2 || low > 36 then 10 else low
    ensures r0 / 0x2000_0000 % 2 == 1 ==> Limit(r0, r2) == r2
    ensures r0 / 0x2000_0000 % 2 == 0 && r0 / 0x4000_0000 % 2 == 1 ==> Limit(r0, r2) == 0xff
    ensures r0 / 0x2000_0000 % 2 == 0 && r0 / 0x4000_0000 % 2 == 0 ==> Limit(r0, r2) == 0xffff_ffff
  {
    assert Pow2(3) == 8 && Pow2(5) == 32 && Pow2(7) == 128;
    MaskIsRem(r0, 7);
    RemIsMod(r0, 128);
  }

  predicate IsDigit(text: seq<char>, c: nat, base: nat) {
    c < |text| && 0 <= Value(text[c]) < base
  }

  /** The inner loop of do_OS_ReadUnsigned, from character c on. */
  function Scan(text: seq<char>, c: nat, base: nat, limit: word, result: word): (r: Result)
    requires c <= |text|
    ensures r.Read? ==> c <= r.end <= |text| && !IsDigit(text, r.end, base)
    ensures r.Read? && result <= limit ==> r.value <= limit
    decreases |text| - c
  {
    if !IsDigit(text, c, base) then Read(c, result)
    else
      var newValue := Wrap(Push(result, base, Value(text[c])));
      if newValue < result then Fail(BAD_NUMBER)
      else if newValue > limit then Fail(TOO_BIG)
      else Scan(text, c + 1, base, limit, newValue)
  }

  /** The checks at the end: there has to be a number, and it may have to fill the string. */
  function Ending(text: seq<char>, r0: word, first: nat, r: Result): Result {
    if r.Fail? then r
    else if r.end == first || (HasFlag(r0, 0x8000_0000) && r.end < |text| && text[r.end] >= ' ') then Fail(BAD_NUMBER)
    else r
  }

  predicate CharAt(text: seq<char>, c: nat, d: char) {
    c < |text| && text[c] == d
  }

  /** Reading on at first, in the base; while maybeReadingBase, the number may turn out to be a base. */
  function ReadFrom(text: seq<char>, r0: word, limit: word, maybeReadingBase: bool, base: nat, first: nat): Result
    requires first <= |text|
    decreases maybeReadingBase
  {
    var r := Scan(text, first, base, limit, 0);
    if maybeReadingBase && r.Read? && CharAt(text, r.end, '_') then
      if 2 <= r.value <= 36 then ReadFrom(text, r0, limit, false, r.value, r.end + 1) else Fail(BAD_BASE)
    else Ending(text, r0, first, r)
  }

  function ReadUnsigned(text: seq<char>, r0: word, r2: word): Result {
    if CharAt(text, 0, '&') then ReadFrom(text, r0, Limit(r0, r2), false, 16, 1)
    else ReadFrom(text, r0, Limit(r0, r2), true, Base(r0), 0)
  }

  lemma ReadUnsignedIs(text: seq<char>, r0: word, r2: word)
    requires text != []
    ensures ReadUnsigned(text, r0, r2)
            == if CharAt(text, 0, '&') then ReadFrom(text, r0, Limit(r0, r2), false, 16, 1)
               else ReadFrom(text, r0, Limit(r0, r2), true, Base(r0), 0)
  {
  }

  lemma ReadFromIs(text: seq<char>, r0: word, limit: word, maybeReadingBase: bool, base: nat, first: nat)
    requires first <= |text|
    ensures var r, read := Scan(text, first, base, limit, 0), ReadFrom(text, r0, limit, maybeReadingBase, base, first);
            if r.Fail? then read == r
            else if maybeReadingBase && CharAt(text, r.end, '_') then
              r.end < |text| && read == if 2 <= r.value <= 36 then ReadFrom(text, r0, limit, false, r.value, r.end + 1)
                                        else Fail(BAD_BASE)
            else
              var over := HasFlag(r0, 0x8000_0000) && r.end < |text| && text[r.end] >= ' ';
              read == if r.end == first || over then Fail(BAD_NUMBER) else r
  {
    hide Scan, HasFlag;
  }

  // ---- what is read ----

  /** Where the digits from c on end. */
  function DigitsEnd(text: seq<char>, c: nat, base: nat): (e: nat)
    requires c <= |text|
    ensures c <= e <= |text| && !IsDigit(text, e, base) && AreDigits(text[c..e], base)
    decreases |text| - c
  {
    if !IsDigit(text, c, base) then c
    else
      var e := DigitsEnd(text, c + 1, base);
      assert text[c..e] == [text[c]] + text[c + 1..e];
      e
  }

  /** The number that is written from c on, however big. */
  function NumberAt(text: seq<char>, c: nat, base: nat, before: nat): nat
    requires c <= |text|
  {
    NumberAfter(before, text[c..DigitsEnd(text, c, base)], base)
  }

  lemma NumberAtStep(text: seq<char>, c: nat, base: nat, before: nat)
    requires IsDigit(text, c, base)
    ensures NumberAt(text, c, base, before) == NumberAt(text, c + 1, base, Push(before, base, Value(text[c])))
  {
    var e := DigitsEnd(text, c, base);
    assert text[c..e][1..] == text[c + 1..e];
  }

  lemma {:induction false} NumberGrows(before: nat, s: seq<char>, base: nat)
    requires base >= 1 && AreDigits(s, base)
    ensures NumberAfter(before, s, base) >= before
    decreases |s|
  {
    if s != [] {
      NumberGrows(Push(before, base, Value(s[0])), s[1..], base);
    }
  }

  lemma NumberAtGrows(text: seq<char>, c: nat, base: nat, before: nat)
    requires c <= |text| && base >= 1
    ensures NumberAt(text, c, base, before) >= before
  {
    NumberGrows(before, text[c..DigitsEnd(text, c, base)], base);
  }

  /** The result is the number that is written from c on, and where it ends. */
  predicate IsRight(r: Result, text: seq<char>, c: nat, base: nat)
    requires c <= |text|
  {
    r.Read? && r.end == DigitsEnd(text, c, base) && r.value == NumberAt(text, c, base, 0)
  }

  lemma {:induction false} ScanWithin(text: seq<char>, c: nat, base: nat, limit: word, before: word)
    requires c <= |text| && base >= 1 && NumberAt(text, c, base, before) <= limit
    ensures Scan(text, c, base, limit, before) == Read(DigitsEnd(text, c, base), NumberAt(text, c, base, before))
    decreases |text| - c
  {
    if IsDigit(text, c, base) {
      hide Push, Wrap;
      var newValue := Push(before, base, Value(text[c]));
      NumberAtStep(text, c, base, before);
      NumberAtGrows(text, c + 1, base, newValue);
      ScanStep(text, c, base, limit, before, newValue);
      hide NumberAt, Value, Scan;
      ScanWithin(text, c + 1, base, limit, newValue);
    }
  }

  lemma ScanStep(text: seq<char>, c: nat, base: nat, limit: word, before: word, newValue: nat)
    requires IsDigit(text, c, base) && newValue == Push(before, base, Value(text[c])) <= limit && base >= 1
    ensures newValue >= before && Scan(text, c, base, limit, before) == Scan(text, c + 1, base, limit, newValue)
    ensures DigitsEnd(text, c, base) == DigitsEnd(text, c + 1, base)
  {
    hide Push;
    assert Wrap(newValue) == newValue;
  }

  /** The reader returns the number that is written if and only if that is within the limit. (A
      number that is not may be refused, or wrap around unnoticed.) */
  lemma ScanIsRightIff(text: seq<char>, c: nat, base: nat, limit: word)
    requires c <= |text| && base >= 1
    ensures IsRight(Scan(text, c, base, limit, 0), text, c, base) <==> NumberAt(text, c, base, 0) <= limit
  {
    if NumberAt(text, c, base, 0) <= limit {
      ScanWithin(text, c, base, limit, 0);
    }
  }

  /** What may follow the number: anything, or only the end of the string. */
  predicate EndsWell(text: seq<char>, e: nat, r0: word) {
    HasFlag(r0, 0x8000_0000) && e < |text| ==> text[e] < ' '
  }

  /** There is a number in the base from c on, it fits and it ends well. */
  predicate Readable(text: seq<char>, c: nat, base: nat, r0: word, r2: word)
    requires c <= |text|
  {
    IsDigit(text, c, base) && NumberAt(text, c, base, 0) <= Limit(r0, r2) && EndsWell(text, DigitsEnd(text, c, base), r0)
  }

  /** The text is a number in the base that r0 gives, without a prefix. */
  predicate IsPlain(text: seq<char>, r0: word) {
    !CharAt(text, 0, '&') && !CharAt(text, DigitsEnd(text, 0, Base(r0)), '_')
  }

  lemma PlainIsRightIff(text: seq<char>, r0: word, r2: word)
    requires IsPlain(text, r0)
    ensures IsRight(ReadUnsigned(text, r0, r2), text, 0, Base(r0)) <==> Readable(text, 0, Base(r0), r0, r2)
  {
    ScanIsRightIff(text, 0, Base(r0), Limit(r0, r2));
  }

  /** A number after & is in base 16, whatever base r0 asks for. */
  lemma AmpersandIsRightIff(text: seq<char>, r0: word, r2: word)
    requires CharAt(text, 0, '&')
    ensures IsRight(ReadUnsigned(text, r0, r2), text, 1, 16) <==> Readable(text, 1, 16, r0, r2)
  {
    ScanIsRightIff(text, 1, 16, Limit(r0, r2));
  }

  /** A scan that gets to its end has taken all the digits, and what it has read never went down. */
  lemma {:induction false} ScanEnds(text: seq<char>, c: nat, base: nat, limit: word, before: word)
    requires c <= |text|
    ensures var r := Scan(text, c, base, limit, before);
            r.Read? ==> r.end == DigitsEnd(text, c, base) && r.value >= before
    decreases |text| - c
  {
    if IsDigit(text, c, base) {
      ScanEnds(text, c + 1, base, limit, Wrap(Push(before, base, Value(text[c]))));
    }
  }

  /** A number that wraps around unnoticed is read as more than any base. */
  lemma {:induction false} WrongIsLarge(text: seq<char>, c: nat, base: nat, limit: word, before: word)
    requires c <= |text| && 1 <= base <= 36
    ensures var r := Scan(text, c, base, limit, before);
            r.Read? && r.value != NumberAt(text, c, base, before) ==> r.value > 36
    decreases |text| - c
  {
    if IsDigit(text, c, base) {
      var newValue := Push(before, base, Value(text[c]));
      NumberAtStep(text, c, base, before);
      if newValue < WORD_SIZE {
        assert Wrap(newValue) == newValue;
        WrongIsLarge(text, c + 1, base, limit, newValue);
      } else {
        WrapsAboveBases(before, base, Value(text[c]));
        ScanEnds(text, c, base, limit, before);
      }
    }
  }

  lemma WrapsAboveBases(before: nat, base: nat, digit: nat)
    requires 1 <= base <= 36 && digit < base && Push(before, base, digit) >= WORD_SIZE
    ensures before > 36
  {
    assert before <= 36 ==> before * base <= 36 * 36;
  }

  /** A number after a base from 2 to 36 and _ is in that base, if the base is within the limit too;
      after any other base it is refused. */
  lemma PrefixIsRightIff(text: seq<char>, r0: word, r2: word)
    requires !CharAt(text, 0, '&') && CharAt(text, DigitsEnd(text, 0, Base(r0)), '_')
    ensures var base, c := NumberAt(text, 0, Base(r0), 0), DigitsEnd(text, 0, Base(r0)) + 1;
            if 2 <= base <= 36 then
              IsRight(ReadUnsigned(text, r0, r2), text, c, base) <==> base <= Limit(r0, r2) && Readable(text, c, base, r0, r2)
            else
              && ReadUnsigned(text, r0, r2).Fail?
              && (base <= Limit(r0, r2) ==> ReadUnsigned(text, r0, r2) == Fail(BAD_BASE))
  {
    PrefixCases(text, r0, r2);
    var base, c := NumberAt(text, 0, Base(r0), 0), DigitsEnd(text, 0, Base(r0)) + 1;
    if 2 <= base <= 36 {
      ScanIsRightIff(text, c, base, Limit(r0, r2));
    }
  }

  /** What the base before a _ leads to. */
  lemma PrefixCases(text: seq<char>, r0: word, r2: word)
    requires !CharAt(text, 0, '&') && CharAt(text, DigitsEnd(text, 0, Base(r0)), '_')
    ensures var base, c, limit := NumberAt(text, 0, Base(r0), 0), DigitsEnd(text, 0, Base(r0)) + 1, Limit(r0, r2);
            && c <= |text|
            && (base > limit ==> ReadUnsigned(text, r0, r2).Fail?)
            && (base <= limit && !(2 <= base <= 36) ==> ReadUnsigned(text, r0, r2) == Fail(BAD_BASE))
            && (2 <= base <= 36 && base <= limit ==> ReadUnsigned(text, r0, r2) == ReadFrom(text, r0, limit, false, base, c))
  {
    ScanIsRightIff(text, 0, Base(r0), Limit(r0, r2));
    ScanEnds(text, 0, Base(r0), Limit(r0, r2), 0);
    WrongIsLarge(text, 0, Base(r0), Limit(r0, r2), 0);
    ReadUnsignedIs(text, r0, r2);
    ReadFromIs(text, r0, Limit(r0, r2), true, Base(r0), 0);
    hide Scan, Base, Limit, NumberAt, DigitsEnd, ReadFrom, ReadUnsigned;
  }

  // ---- what is refused ----

  /** Below the limit, one more digit never gets back to where it started by going round the range of
      the words. Without a limit this is so in no base; with a limit of one byte it is in every base. */
  predicate NoticesWraps(base: nat, limit: word) {
    (limit + 1) * (base - 1) < WORD_SIZE
  }

  lemma NoLimitNoticesNothing(base: nat)
    requires 2 <= base <= 36
    ensures !NoticesWraps(base, 0xffff_ffff) && NoticesWraps(base, 0xff)
  {
  }

  /** Up to such a limit, a number that wraps around always ends up below what it was before the
      digit that is too much. */
  lemma WrapShows(before: word, base: nat, digit: nat, limit: word)
    requires before <= limit && digit < base && NoticesWraps(base, limit)
    requires Push(before, base, digit) > limit
    ensures Wrap(Push(before, base, digit)) < before || Wrap(Push(before, base, digit)) > limit
  {
    var newValue := Push(before, base, digit);
    assert newValue == before + (before * (base - 1) + digit);
    assert before * (base - 1) <= limit * (base - 1);
    assert (limit + 1) * (base - 1) == limit * (base - 1) + (base - 1);
    if newValue >= WORD_SIZE {
      assert newValue - WORD_SIZE < before;
      ModUnique(1, WORD_SIZE, newValue - WORD_SIZE, newValue);
    } else {
      ModUnique(0, WORD_SIZE, newValue, newValue);
    }
  }

  lemma {:induction false} ScanRefuses(text: seq<char>, c: nat, base: nat, limit: word, before: word)
    requires c <= |text| && before <= limit && base >= 1 && NoticesWraps(base, limit)
    requires NumberAt(text, c, base, before) > limit
    ensures Scan(text, c, base, limit, before).Fail?
    decreases |text| - c
  {
    if IsDigit(text, c, base) {
      var newValue := Push(before, base, Value(text[c]));
      NumberAtStep(text, c, base, before);
      if newValue <= limit {
        ScanStep(text, c, base, limit, before, newValue);
        ScanRefuses(text, c + 1, base, limit, newValue);
      } else {
        WrapShows(before, base, Value(text[c]), limit);
      }
    }
  }

  /** Every number can be written in every base. */
  lemma {:induction false} Writable(n: nat, base: nat) returns (s: seq<char>)
    requires 2 <= base <= 36
    ensures s != [] && AreDigits(s, base) && NumberAfter(0, s, base) == n
  {
    if n < base {
      s := [Digit(n)];
      assert NumberAfter(n, s[1..], base) == n;
    } else {
      var higher, last := LastDigit(n, base);
      var t := Writable(higher, base);
      s := t + [Digit(last)];
      NumberAfterMore(0, t, Digit(last), base);
    }
  }

  lemma LastDigit(n: nat, base: nat) returns (higher: nat, last: nat)
    requires 2 <= base <= n
    ensures last < base && higher < n && Push(higher, base, last) == n
  {
    higher, last := n / base, n % base;
    assert n == higher * base + last;
    assert higher * base >= higher * 2;
  }

  lemma {:induction false} AllDigits(text: seq<char>, c: nat, base: nat)
    requires c <= |text| && AreDigits(text[c..], base)
    ensures DigitsEnd(text, c, base) == |text|
    decreases |text| - c
  {
    if c < |text| {
      assert text[c] == text[c..][0] && text[c + 1..] == text[c..][1..];
      AllDigits(text, c + 1, base);
    }
  }

  /** Digits that stay within the limit are passed over. */
  lemma {:induction false} ScanPast(text: seq<char>, c: nat, e: nat, base: nat, limit: word, before: word)
    requires c <= e <= |text| && base >= 1 && AreDigits(text[c..e], base) && NumberAfter(before, text[c..e], base) <= limit
    ensures Scan(text, c, base, limit, before) == Scan(text, e, base, limit, NumberAfter(before, text[c..e], base))
    decreases e - c
  {
    if c < e {
      var newValue := Push(before, base, Value(text[c]));
      assert text[c] == text[c..e][0] && text[c + 1..e] == text[c..e][1..];
      NumberGrows(newValue, text[c + 1..e], base);
      ScanStep(text, c, base, limit, before, newValue);
      ScanPast(text, c + 1, e, base, limit, newValue);
    }
  }

  /** The number that one more digit takes once round the range of the words, to itself. */
  lemma Comeback(base: nat, limit: word) returns (v: word, d: nat)
    requires base >= 2 && !NoticesWraps(base, limit)
    ensures v <= limit && d < base && Push(v, base, d) == v + WORD_SIZE
  {
    var q := (WORD_SIZE - 1) / (base - 1);
    assert WORD_SIZE - 1 == q * (base - 1) + (WORD_SIZE - 1) % (base - 1);
    assert q > limit ==> q * (base - 1) >= (limit + 1) * (base - 1);
    v, d := q, WORD_SIZE - q * (base - 1);
    assert v * base == v * (base - 1) + v;
  }

  /** Beyond such a limit, some number is read as one that it is not. */
  lemma WritableComeback(start: seq<char>, base: nat, limit: word) returns (text: seq<char>)
    requires 2 <= base <= 36 && !NoticesWraps(base, limit)
    ensures |start| < |text| && text[..|start|] == start && AreDigits(text[|start|..], base)
    ensures NumberAt(text, |start|, base, 0) > limit && DigitsEnd(text, |start|, base) == |text|
    ensures Scan(text, |start|, base, limit, 0).Read? && Scan(text, |start|, base, limit, 0).end == |text|
  {
    var v, d := Comeback(base, limit);
    var s := Writable(v, base);
    text := start + s + [Digit(d)];
    var c, e := |start|, |start + s|;
    assert text[c..] == s + [Digit(d)] && text[c..e] == s;
    AllDigits(text, c, base);
    NumberAfterMore(0, s, Digit(d), base);
    assert text[c..|text|] == text[c..];
    ScanPast(text, c, e, base, limit, 0);
    ModUnique(1, WORD_SIZE, v, v + WORD_SIZE);
    assert Scan(text, e, base, limit, v) == Scan(text, e + 1, base, limit, v) == Read(|text|, v);
  }

  /** The digit loop refuses every number beyond the limit if and only if the limit and the base are
      small enough for this. */
  lemma ScanRefusesIff(c: nat, base: nat, limit: word)
    requires 2 <= base <= 36
    ensures (forall text: seq<char> | c <= |text| && NumberAt(text, c, base, 0) > limit :: Scan(text, c, base, limit, 0).Fail?)
            <==> NoticesWraps(base, limit)
  {
    if NoticesWraps(base, limit) {
      forall text: seq<char> | c <= |text| && NumberAt(text, c, base, 0) > limit
        ensures Scan(text, c, base, limit, 0).Fail?
      {
        ScanRefuses(text, c, base, limit, 0);
      }
    } else {
      var text := WritableComeback(seq(c, _ => ' '), base, limit);
    }
  }

  lemma PlainRefuses(text: seq<char>, r0: word, r2: word)
    requires IsPlain(text, r0) && NumberAt(text, 0, Base(r0), 0) > Limit(r0, r2) && NoticesWraps(Base(r0), Limit(r0, r2))
    ensures ReadUnsigned(text, r0, r2).Fail?
  {
    ScanRefuses(text, 0, Base(r0), Limit(r0, r2), 0);
    hide Scan, Base, Limit, NoticesWraps, NumberAt;
  }

  lemma PlainComeback(r0: word, r2: word) returns (text: seq<char>)
    requires !NoticesWraps(Base(r0), Limit(r0, r2))
    ensures IsPlain(text, r0) && NumberAt(text, 0, Base(r0), 0) > Limit(r0, r2) && ReadUnsigned(text, r0, r2).Read?
  {
    assert 2 <= Base(r0) <= 36;
    hide Base, Limit, NoticesWraps, NumberAt, Scan;
    text := WritableComeback([], Base(r0), Limit(r0, r2));
    assert text == text[0..];
    assert 0 <= Value(text[0]);
  }

  /** So OS_ReadUnsigned refuses every plain number beyond the limit if and only if they are. */
  lemma PlainRefusesIff(r0: word, r2: word)
    ensures (forall text | IsPlain(text, r0) && NumberAt(text, 0, Base(r0), 0) > Limit(r0, r2) :: ReadUnsigned(text, r0, r2).Fail?)
            <==> NoticesWraps(Base(r0), Limit(r0, r2))
  {
    hide *;
    if NoticesWraps(Base(r0), Limit(r0, r2)) {
      forall text | IsPlain(text, r0) && NumberAt(text, 0, Base(r0), 0) > Limit(r0, r2)
        ensures ReadUnsigned(text, r0, r2).Fail?
      {
        PlainRefuses(text, r0, r2);
      }
    } else {
      var text := PlainComeback(r0, r2);
    }
  }

  /** The same after &, where the base is 16. */
  lemma AmpersandRefusesIff(r0: word, r2: word)
    ensures (forall text | CharAt(text, 0, '&') && NumberAt(text, 1, 16, 0) > Limit(r0, r2) :: ReadUnsigned(text, r0, r2).Fail?)
            <==> NoticesWraps(16, Limit(r0, r2))
  {
    var limit := Limit(r0, r2);
    if NoticesWraps(16, limit) {
      forall text | CharAt(text, 0, '&') && NumberAt(text, 1, 16, 0) > limit
        ensures ReadUnsigned(text, r0, r2).Fail?
      {
        ScanRefuses(text, 1, 16, limit, 0);
      }
    } else {
      var text := WritableComeback("&", 16, limit);
      assert text[0] == text[..1][0];
      assert CharAt(text, 0, '&') && ReadUnsigned(text, r0, r2).Read?;
    }
  }

  /** The base is written before a _. */
  predicate HasPrefix(text: seq<char>, r0: word, base: nat) {
    && !CharAt(text, 0, '&') && CharAt(text, DigitsEnd(text, 0, Base(r0)), '_')
    && NumberAt(text, 0, Base(r0), 0) == base
  }

  lemma PrefixIsFound(text: seq<char>, prefix: seq<char>, base: nat)
    requires prefix != [] && AreDigits(prefix, base) && prefix + "_" <= text
    ensures !CharAt(text, 0, '&') && DigitsEnd(text, 0, base) == |prefix| && CharAt(text, |prefix|, '_')
    ensures NumberAt(text, 0, base, 0) == NumberAfter(0, prefix, base)
  {
    assert text[..|prefix + "_"|] == prefix + "_";
    assert text[0] == prefix[0] && text[|prefix|] == (prefix + "_")[|prefix|] && text[0..|prefix|] == prefix;
    DigitsThenEnd(text, 0, prefix, base);
  }

  /** The same after a base and _. */
  lemma PrefixRefusesIff(r0: word, r2: word, base: nat)
    requires 2 <= base <= 36
    ensures (forall text | HasPrefix(text, r0, base) && NumberAt(text, DigitsEnd(text, 0, Base(r0)) + 1, base, 0) > Limit(r0, r2)
               :: ReadUnsigned(text, r0, r2).Fail?)
            <==> NoticesWraps(base, Limit(r0, r2))
  {
    var limit := Limit(r0, r2);
    if NoticesWraps(base, limit) {
      forall text | HasPrefix(text, r0, base) && NumberAt(text, DigitsEnd(text, 0, Base(r0)) + 1, base, 0) > limit
        ensures ReadUnsigned(text, r0, r2).Fail?
      {
        PrefixCases(text, r0, r2);
        ScanRefuses(text, DigitsEnd(text, 0, Base(r0)) + 1, base, limit, 0);
        ReadFromIs(text, r0, limit, false, base, DigitsEnd(text, 0, Base(r0)) + 1);
        hide Scan, ReadFrom, ReadUnsigned, NumberAt, DigitsEnd, Base, Limit;
      }
    } else {
      var text := PrefixedComeback(r0, r2, base);
    }
  }

  lemma PrefixedComeback(r0: word, r2: word, base: nat) returns (text: seq<char>)
    requires 2 <= base <= 36 && !NoticesWraps(base, Limit(r0, r2))
    ensures HasPrefix(text, r0, base) && NumberAt(text, DigitsEnd(text, 0, Base(r0)) + 1, base, 0) > Limit(r0, r2)
    ensures ReadUnsigned(text, r0, r2).Read?
  {
    LimitAboveBases(base, Limit(r0, r2));
    assert 2 <= Base(r0) <= 36;
    var prefix := Writable(base, Base(r0));
    hide *;
    text := WritableComeback(prefix + "_", base, Limit(r0, r2));
    PrefixedIsRead(text, prefix, r0, r2, base);
  }

  lemma LimitAboveBases(base: nat, limit: word)
    requires 2 <= base <= 36 && !NoticesWraps(base, limit)
    ensures base <= limit
  {
    assert limit < base ==> (limit + 1) * (base - 1) <= 36 * 35;
  }

  lemma PrefixedIsRead(text: seq<char>, prefix: seq<char>, r0: word, r2: word, base: nat)
    requires prefix != [] && AreDigits(prefix, Base(r0)) && NumberAfter(0, prefix, Base(r0)) == base && prefix + "_" <= text
    requires 2 <= base <= 36 && base <= Limit(r0, r2)
    requires var r := Scan(text, |prefix + "_"|, base, Limit(r0, r2), 0); r.Read? && r.end == |text| > |prefix + "_"|
    ensures HasPrefix(text, r0, base) && DigitsEnd(text, 0, Base(r0)) + 1 == |prefix + "_"| <= |text|
    ensures ReadUnsigned(text, r0, r2).Read?
  {
    hide Scan, ReadFrom, ReadUnsigned, NumberAt, DigitsEnd, Base, Limit, AreDigits, NumberAfter, HasFlag;
    PrefixIsFound(text, prefix, Base(r0));
    PrefixCases(text, r0, r2);
    ReadFromIs(text, r0, Limit(r0, r2), false, base, |prefix| + 1);
  }

  predicate IsSevenMillion(text: seq<char>) {
    |text| == 7 && text[0] == '7' && forall i | 1 <= i < 7 :: text[i] == '0'
  }

  lemma SevenMillionNumber(text: seq<char>)
    requires IsSevenMillion(text)
    ensures DigitsEnd(text, 0, 36) == 7 && NumberAt(text, 0, 36, 0) == 15_237_476_352
  {
    assert NumberAt(text, 7, 36, 15_237_476_352) == 15_237_476_352;
    hide NumberAt;
    NumberAtStep(text, 6, 36, 423_263_232);
    NumberAtStep(text, 5, 36, 11_757_312);
    NumberAtStep(text, 4, 36, 326_592);
    NumberAtStep(text, 3, 36, 9_072);
    NumberAtStep(text, 2, 36, 252);
    NumberAtStep(text, 1, 36, 7);
    NumberAtStep(text, 0, 36, 0);
  }

  lemma SevenMillionScan(text: seq<char>)
    requires IsSevenMillion(text)
    ensures Scan(text, 0, 36, 0xffff_ffff, 0) == Read(7, 2_352_574_464)
  {
    assert Scan(text, 6, 36, 0xffff_ffff, 423_263_232) == Scan(text, 7, 36, 0xffff_ffff, 2_352_574_464);
    assert Scan(text, 7, 36, 0xffff_ffff, 2_352_574_464) == Read(7, 2_352_574_464);
    hide Scan;
    ScanStep(text, 0, 36, 0xffff_ffff, 0, 7);
    ScanStep(text, 1, 36, 0xffff_ffff, 7, 252);
    ScanStep(text, 2, 36, 0xffff_ffff, 252, 9_072);
    ScanStep(text, 3, 36, 0xffff_ffff, 9_072, 326_592);
    ScanStep(text, 4, 36, 0xffff_ffff, 326_592, 11_757_312);
    ScanStep(text, 5, 36, 0xffff_ffff, 11_757_312, 423_263_232);
  }

  /** Not every number that is too big is noticed: 7000000 in base 36 wraps around. */
  lemma OverflowUnnoticed(text: seq<char>)
    requires IsSevenMillion(text)
    ensures NumberAt(text, 0, 36, 0) == 15_237_476_352
    ensures ReadUnsigned(text, 36, 0) == Read(7, 2_352_574_464)
  {
    hide *;
    SevenMillionNumber(text);
    SevenMillionScan(text);
    SevenMillionIsPlain(text);
    WholeTextIsRead(text, 36, 0, 2_352_574_464);
  }

  lemma SevenMillionIsPlain(text: seq<char>)
    requires IsSevenMillion(text)
    ensures |text| == 7 && !CharAt(text, 0, '&') && Base(36) == 36 && Limit(36, 0) == 0xffff_ffff
  {
  }

  lemma WholeTextIsRead(text: seq<char>, r0: word, r2: word, n: word)
    requires text != [] && !CharAt(text, 0, '&') && Scan(text, 0, Base(r0), Limit(r0, r2), 0) == Read(|text|, n)
    ensures ReadUnsigned(text, r0, r2) == Read(|text|, n)
  {
    hide Scan, Base, Limit, HasFlag;
  }

  /** The memory from an address on, going round at its end. */
  function From(memory: Memory, a: word): (text: seq<char>)
    ensures |text| == WORD_SIZE
    ensures forall i: word :: text[i] == memory[Add(a, i)]
  {
    memory[a..] + memory[..a]
  }

  /** The string ends somewhere. */
  predicate Terminated(text: seq<char>) {
    exists i | 0 <= i < |text| :: text[i] < ' '
  }

  // ---- reading back ----

  lemma {:induction false} DigitsThenEnd(text: seq<char>, c: nat, s: seq<char>, base: nat)
    requires c + |s| < |text| && text[c..c + |s|] == s && AreDigits(s, base) && Value(text[c + |s|]) == -1
    ensures DigitsEnd(text, c, base) == c + |s|
    decreases |s|
  {
    if s != [] {
      assert text[c] == s[0];
      assert text[c + 1..c + |s|] == s[1..];
      DigitsThenEnd(text, c + 1, s[1..], base);
    }
  }

  /** Text that starts with the digits of a number and a zero byte is read as that number. */
  lemma WrittenIsRead(text: seq<char>, s: seq<char>, r0: word, r2: word)
    requires 0 < |s| < |text| && text[..|s|] == s && text[|s|] == '\0' && AreDigits(s, Base(r0))
    requires NumberAfter(0, s, Base(r0)) <= Limit(r0, r2)
    ensures ReadUnsigned(text, r0, r2) == Read(|s|, NumberAfter(0, s, Base(r0)))
  {
    assert text[0..|s|] == s;
    DigitsThenEnd(text, 0, s, Base(r0));
    assert text[0] == s[0] && IsDigit(text, 0, Base(r0));
    assert Readable(text, 0, Base(r0), r0, r2);
    PlainIsRightIff(text, r0, r2);
  }

  /** Where there was room, memory holds the characters. */
  lemma PutAllText(o: Output, s: seq<char>)
    requires o.ok && |s| < WORD_SIZE && (o.r2 == 0 || o.r2 > |s|)
    ensures PutAll(o, s).ok && PutAll(o, s).r1 == Add(o.r1, |s|)
    ensures From(PutAll(o, s).memory, o.r1)[..|s|] == s
  {
    PutAllEffect(o, s, 0);
    var text := From(PutAll(o, s).memory, o.r1);
    forall i: word | i < |s|
      ensures text[i] == s[i]
    {
      PutAllEffect(o, s, i);
    }
  }

  /** A decimal that has been printed, with room for it, is read back in base 10 as the same number,
      up to the terminator; and it is printed if and only if there is room. */
  lemma DecimalRoundTrip(o: Output, n: word, r0: word, r2: word)
    requires o.ok && Base(r0) == 10 && n <= Limit(r0, r2)
    ensures var r := Printed(o, Decimal(n));
            && (r.ok <==> o.r2 == 0 || o.r2 > |Decimal(n)|)
            && (r.ok ==> ReadUnsigned(From(r.memory, o.r1), r0, r2) == Read(|Decimal(n)|, n))
  {
    var s := Decimal(n);
    DecimalIsNumber(n);
    DecimalLength(n, 10);
    PutAllEffect(o, s, 0);
    if o.r2 == 0 || o.r2 > |s| {
      PutAllText(o, s);
      var text := From(Printed(o, s).memory, o.r1);
      assert text[..|s|] == From(PutAll(o, s).memory, o.r1)[..|s|];
      WrittenIsRead(text, s, r0, r2);
    }
  }

  lemma TerminatedText(text: seq<char>, s: seq<char>)
    requires |s| < |text| && text[..|s| + 1] == s + ['\0']
    ensures text[..|s|] == s && text[|s|] == '\0'
  {
    assert text[..|s| + 1][..|s|] == text[..|s|];
    assert text[..|s| + 1][|s|] == '\0';
  }

  /** Hexadecimal that has been printed is read back in base 16 as the digits that were asked for. */
  lemma HexRoundTrip(o: Output, n: word, digits: nat, r0: word, r2: word)
    requires o.ok && Base(r0) == 16 && 1 <= digits <= 8 && n % Pow16(digits) <= Limit(r0, r2)
    ensures var r := PutAll(o, Hex(n, digits) + ['\0']);
            && (r.ok <==> o.r2 == 0 || o.r2 > digits + 1)
            && (r.ok ==> ReadUnsigned(From(r.memory, o.r1), r0, r2) == Read(digits, n % Pow16(digits)))
  {
    hide Hex, PutAll, From, ReadUnsigned, Limit, Base;
    var s := Hex(n, digits);
    HexIsNumber(n, digits);
    PutAllEffect(o, s + ['\0'], 0);
    if o.r2 == 0 || o.r2 > digits + 1 {
      PutAllText(o, s + ['\0']);
      var text := From(PutAll(o, s + ['\0']).memory, o.r1);
      TerminatedText(text, s);
      WrittenIsRead(text, s, r0, r2);
    }
  }

  class Conversion {
    var r0: word
    var r1: word
    var r2: word
    const memory: array<char>

    ghost predicate Valid() {
      memory.Length == WORD_SIZE
    }

    ghost function State(ok: bool): Output
      reads this, memory
      requires Valid()
    {
      Output(memory[..], r1, r2, ok)
    }

    method WriteConvertedCharacter(c: char) returns (ok: bool)
      requires Valid()
      modifies this`r1, this`r2, memory
      ensures State(ok) == Put(old(State(true)), c)
    {
      memory[r1] := c;
      r1 := Add(r1, 1);
      r2 := Sub(r2, 1);
      ok := r2 != 0;
    }

    method RecursiveConvertDecimal(n: word) returns (ok: bool)
      requires Valid()
      modifies this`r1, this`r2, memory
      ensures State(ok) == PutAll(old(State(true)), Decimal(n))
      decreases n
    {
      ghost var start := State(true);
      var d := n / 10;
      ok := true;
      if d > 0 {
        ok := RecursiveConvertDecimal(d);
      }
      ghost var higher := if d > 0 then Decimal(d) else [];
      assert State(ok) == PutAll(start, higher);
      PutAllMore(start, higher, [Digit(n % 10)]);
      ghost var half := State(ok);
      assert PutAll(half, [Digit(n % 10)]) == Put(half, Digit(n % 10));
      if ok {
        ok := WriteConvertedCharacter(Digit(n % 10));
      }
    }

    method ConvertDecimal(mask: word, ghost bits: nat) returns (ok: bool)
      requires Valid() && mask == Pow2(bits) - 1
      modifies this, memory
      ensures State(ok) == Printed(old(State(true)), Decimal(old(r0) % Pow2(bits)))
      ensures r0 == old(r1)
    {
      MaskIsRem(r0, bits);
      RemIsMod(r0, Pow2(bits));
      var n := BitAnd(r0, mask);
      r0 := r1;
      ok := RecursiveConvertDecimal(n);
      if ok {
        memory[r1] := '\0';
      }
    }

    method HexConvert(digits: nat) returns (ok: bool)
      requires Valid()
      modifies this, memory
      ensures State(ok) == PutAll(old(State(true)), Hex(old(r0), digits) + ['\0'])
      ensures r0 == old(r1)
    {
      var n := r0;
      ghost var start := State(true);
      r0 := r1;
      ok := true;
      var i := digits;
      while i > 0 && ok
        invariant 0 <= i <= digits && r0 == start.r1
        invariant State(ok) == PutAll(start, Hex(Shifted(n, i), digits - i))
      {
        i := i - 1;
        ghost var half := State(true);
        PutAllMore(start, Hex(Shifted(n, i + 1), digits - i - 1), [Digit(Shifted(n, i) % 16)]);
        assert PutAll(half, [Digit(Shifted(n, i) % 16)]) == Put(half, Digit(Shifted(n, i) % 16));
        ok := WriteConvertedCharacter(Digit(Shifted(n, i) % 16));
      }
      HexStarts(n, i, digits);
      ghost var rest := if ok then ['\0'] else Hex(n, digits)[digits - i..] + ['\0'];
      assert Hex(n, digits) + ['\0'] == Hex(Shifted(n, i), digits - i) + rest;
      PutAllMore(start, Hex(Shifted(n, i), digits - i), rest);
      if ok {
        assert PutAll(State(true), rest) == Put(State(true), '\0');
        ok := WriteConvertedCharacter('\0');
      } else {
        FailedStays(State(ok), rest);
      }
    }

    /** The inner loop of do_OS_ReadUnsigned; start is where the text starts, and at how far in it
        the loop does. An error of 0 is none. */
    method ScanDigits(from: word, base: nat, limit: word, ghost start: word, ghost at: nat)
      returns (error: nat, c: word, result: word)
      requires Valid() && at < WORD_SIZE && from == Add(start, at)
      requires exists t | at <= t < WORD_SIZE :: From(memory[..], start)[t] < ' '
      ensures match Scan(From(memory[..], start), at, base, limit, 0)
              case Read(e, v) =>
                && error == 0 && e < WORD_SIZE && c == Add(start, e) && result == v
                && exists t | e <= t < WORD_SIZE :: From(memory[..], start)[t] < ' '
              case Fail(e) => error == e > 0
    {
      ghost var text, t, k := From(memory[..], start), 0, at;
      t :| at <= t < WORD_SIZE && text[t] < ' ';
      c, result, error := from, 0, 0;
      while 0 <= Value(memory[c]) < base
        invariant at <= k <= t && c == Add(start, k) && text == From(memory[..], start)
        invariant Scan(text, at, base, limit, 0) == Scan(text, k, base, limit, result)
        decreases t - k
      {
        var newValue := Wrap(Push(result, base, Value(memory[c])));
        if newValue < result {
          error := BAD_NUMBER;
          return;
        }
        if newValue > limit {
          error := TOO_BIG;
          return;
        }
        result := newValue;
        c := Add(c, 1);
        k := k + 1;
      }
    }

    lemma TextStarts(start: word)
      requires Valid() && Terminated(From(memory[..], start))
      ensures memory.Length == WORD_SIZE && exists t | 0 <= t < WORD_SIZE :: From(memory[..], start)[t] < ' '
    {
    }

    /** Position at of the text, in the memory. */
    lemma Character(start: word, at: nat)
      requires Valid() && at < WORD_SIZE
      ensures From(memory[..], start)[at] == memory[Add(start, at)]
      ensures at + 1 < WORD_SIZE ==> Add(Add(start, at), 1) == Add(start, at + 1)
      ensures Add(start, 0) == start
      ensures forall d :: CharAt(From(memory[..], start), at, d) <==> memory[Add(start, at)] == d
    {
      hide From;
    }

    lemma OnlyThere(start: word, at: nat, end: nat)
      requires at < WORD_SIZE && end < WORD_SIZE
      ensures Add(start, at) == Add(start, end) <==> at == end
    {
    }

    method OsReadUnsigned() returns (error: nat)
      requires Valid() && Terminated(From(memory[..], r1))
      modifies this`r1, this`r2
      ensures match ReadUnsigned(From(memory[..], old(r1)), r0, old(r2))
              case Read(e, v) => error == 0 && e < WORD_SIZE && r1 == Add(old(r1), e) && r2 == v
              case Fail(e) => error == e > 0 && r1 == old(r1) && r2 == old(r2)
    {
      hide From, Scan, Value, Base, Limit, HasFlag, ReadUnsigned, ReadFrom, CharAt, Terminated, Add;
      TextStarts(r1);
      ghost var text := From(memory[..], r1);
      ghost var at: nat := 0;
      ReadUnsignedIs(text, r0, r2);
      Character(r1, 0);
      BaseAndLimitAre(r0, r2);
      var base: nat, limit := BitAnd(r0, 0x7f), 0xffff_ffff;
      if base < 2 || base > 36 {
        base := 10;
      }
      if HasFlag(r0, 0x2000_0000) {
        limit := r2;
      } else if HasFlag(r0, 0x4000_0000) {
        limit := 0xff;
      }
      assert base == Base(r0) && limit == Limit(r0, r2) by {
        FlagIs(r0, 0x2000_0000);
        FlagIs(r0, 0x4000_0000);
      }
      var c, maybeReadingBase, result := r1, true, 0;
      if memory[c] == '&' {
        base, c, maybeReadingBase, at := 16, Add(c, 1), false, 1;
      }
      var first := c;
      while true
        modifies {}
        invariant at < WORD_SIZE && c == first == Add(r1, at)
        invariant exists t | at <= t < WORD_SIZE :: text[t] < ' '
        invariant ReadUnsigned(text, r0, r2) == ReadFrom(text, r0, limit, maybeReadingBase, base, at)
        decreases maybeReadingBase
      {
        ReadFromIs(text, r0, limit, maybeReadingBase, base, at);
        assert text == From(memory[..], r1);
        ghost var read := Scan(text, at, base, limit, 0);
        error, c, result := ScanDigits(c, base, limit, r1, at);
        if error != 0 {
          return;
        }
        Character(r1, read.end);
        OnlyThere(r1, at, read.end);
        if !(memory[c] == '_' && maybeReadingBase) {
          break;
        }
        if !(2 <= result <= 36) {
          error := BAD_BASE;
          return;
        }
        c, base, maybeReadingBase := Add(c, 1), result, false;
        first := c;
        at := read.end + 1;
      }
      if (HasFlag(r0, 0x8000_0000) && memory[c] >= ' ') || c == first {
        error := BAD_NUMBER;
        return;
      }
      r1 := c;
      r2 := result;
    }
  }
}
