/** What the text of an Intel HEX file means, said about its characters: which addresses and values a line writes, and which
    upper address is in force. */
module HexLines {
  import opened Common
  import opened Uf2
  import opened HexToUf2

  /** The value of a hex digit, or -1. */
  function HexValue(c: char): (r: int)
    ensures -1 <= r < 16
  {
    match c
    case '0' => 0
    case '1' => 1
    case '2' => 2
    case '3' => 3
    case '4' => 4
    case '5' => 5
    case '6' => 6
    case '7' => 7
    case '8' => 8
    case '9' => 9
    case 'A' => 10
    case 'a' => 10
    case 'B' => 11
    case 'b' => 11
    case 'C' => 12
    case 'c' => 12
    case 'D' => 13
    case 'd' => 13
    case 'E' => 14
    case 'e' => 14
    case 'F' => 15
    case 'f' => 15
    case _ => -1
  }

  lemma DigitIs(c: char)
    ensures Digit(c) == if HexValue(c) >= 0 then HexValue(c) else 16
  {
    if c < '0' || c > '9' {
      LetterIs(c);
    }
  }

  lemma LetterIs(c: char)
    requires c < '0' || c > '9'
    ensures Digit(c) == if HexValue(c) >= 0 then HexValue(c) else 16
  {
  }

  /** A pair of digits, or one digit and a carriage return, which is blank space. */
  lemma PairReads(c: char, d: char)
    ensures HexPair(c, d) == if HexValue(c) >= 0 && HexValue(d) >= 0 then Ok(16 * HexValue(c) + HexValue(d))
                             else if c == '\r' && HexValue(d) >= 0 then Ok(HexValue(d))
                             else if HexValue(c) >= 0 && d == '\r' then Ok(HexValue(c))
                             else Err
  {
    hide Digit, HexValue;
    DigitIs(c);
    DigitIs(d);
    ReturnIsNoDigit();
  }

  lemma ReturnIsNoDigit()
    ensures HexValue('\r') == -1
  {
  }

  // ---------- One line

  /** How many whole pairs follow the colon. A last lone character, such as the carriage return, is not looked at. */
  function Pairs(line: string): nat
    requires line != ""
  {
    (|line| - 1) / 2
  }

  /** A colon and pairs of hex digits. */
  predicate HexLine(line: string) {
    line != "" && line[0] == ':' && forall i :: 1 <= i < 1 + 2 * Pairs(line) ==> HexValue(line[i]) >= 0
  }

  /** The number that k hex digits from position i on denote, the first one weighing most. */
  function Value(line: string, i: nat, k: nat): nat
    requires i + k <= |line| && forall j :: i <= j < i + k ==> HexValue(line[j]) >= 0
  {
    if k == 0 then 0 else 16 * Value(line, i, k - 1) + HexValue(line[i + k - 1])
  }

  /** The record of a hex line has a byte for each pair. */
  lemma {:induction false} RecordReads(line: string, i: nat)
    requires HexLine(line) && 1 <= i <= 1 + 2 * Pairs(line) && i % 2 == 1
    ensures var r := RecordFrom(line, i);
            r.Ok? && |r.value| == Pairs(line) - i / 2
            && forall k :: 0 <= k < |r.value| ==>
                 HexValue(line[i + 2 * k]) >= 0 && HexValue(line[i + 2 * k + 1]) >= 0
                 && r.value[k] == 16 * HexValue(line[i + 2 * k]) + HexValue(line[i + 2 * k + 1])
    decreases |line| - i
  {
    hide HexPair, HexValue, RecordFrom;
    RecordUnfolds(line, i);
    if i < |line| - 1 {
      PairReads(line[i], line[i + 1]);
      RecordReads(line, i + 2);
      var rest := RecordFrom(line, i + 2).value;
      var all := RecordFrom(line, i).value;
      forall k | 0 <= k < |all|
        ensures HexValue(line[i + 2 * k]) >= 0 && HexValue(line[i + 2 * k + 1]) >= 0
        ensures all[k] == 16 * HexValue(line[i + 2 * k]) + HexValue(line[i + 2 * k + 1])
      {
        if k > 0 {
          assert all[k] == rest[k - 1] && i + 2 * k == (i + 2) + 2 * (k - 1);
        }
      }
    }
  }

  lemma RecordUnfolds(line: string, i: nat)
    ensures RecordFrom(line, i)
         == if i >= |line| - 1 then Ok([])
            else if HexPair(line[i], line[i + 1]).Ok? then
              Prepended([HexPair(line[i], line[i + 1]).value], RecordFrom(line, i + 2))
            else Err
  {
    hide HexPair;
  }

  /** Two digits, and four, as the record's bytes have them. */
  lemma ValueOfPairs(line: string, i: nat)
    requires i + 2 <= |line| && forall j :: i <= j < i + 2 ==> HexValue(line[j]) >= 0
    ensures Value(line, i, 2) == 16 * HexValue(line[i]) + HexValue(line[i + 1])
    ensures i + 4 <= |line| && HexValue(line[i + 2]) >= 0 && HexValue(line[i + 3]) >= 0 ==>
              Value(line, i, 4) == 256 * (16 * HexValue(line[i]) + HexValue(line[i + 1]))
                                   + 16 * HexValue(line[i + 2]) + HexValue(line[i + 3])
  {
    assert Value(line, i, 0) == 0;
    assert Value(line, i, 1) == HexValue(line[i]);
    if i + 4 <= |line| && HexValue(line[i + 2]) >= 0 && HexValue(line[i + 3]) >= 0 {
      assert Value(line, i, 3) == 16 * Value(line, i, 2) + HexValue(line[i + 2]);
    }
  }

  lemma {:induction false} DataWritesAt(addr: nat, data: seq<Byte>, j: nat)
    requires j < |data|
    ensures DataWrites(addr, data)[j] == Write(addr + j, data[j])
  {
    if j < |data| - 1 {
      DataWritesAt(addr, data[..|data| - 1], j);
    }
  }

  /** What a hex line does, by its digits: 7 and 8 are the record type, 3 to 6 the address within 64 KiB, 9 on the data, and
      the last pair is left out. Types 4 and 2 set the upper address from digits 9 to 12, type 1 ends the file. */
  lemma HexLineMeaning(line: string, upper: nat)
    requires HexLine(line)
    ensures var n, effect := Pairs(line), LineEffect(line, upper);
            if n < 4 then effect == Failed
            else match Value(line, 7, 2)
                 case 0 =>
                   && effect.Continue? && effect.upper == upper && |effect.writes| == (if n < 5 then 0 else n - 5)
                   && forall j :: 0 <= j < |effect.writes| ==>
                        effect.writes[j].addr == upper + Value(line, 3, 4) + j
                        && effect.writes[j].value == Value(line, 9 + 2 * j, 2)
                 case 1 => effect == EndOfFile
                 case 2 => effect == if n < 6 || 16 * Value(line, 9, 4) % 65536 != 0 then Failed
                                     else Continue([], 16 * Value(line, 9, 4))
                 case 4 => effect == if n < 6 then Failed else Continue([], 65536 * Value(line, 9, 4))
                 case _ => effect == Continue([], upper)
  {
    hide RecordFrom, HexValue, DataWrites, Value, Word16;
    RecordReads(line, 1);
    if Pairs(line) >= 4 {
      RecordByDigits(line);
      var addr, rec, n := upper + Value(line, 3, 4), RecordFrom(line, 1).value, Pairs(line);
      DataByDigits(line, addr);
      if Value(line, 7, 2) == 0 && n >= 5 {
        assert LineEffect(line, upper) == Continue(DataWrites(addr, rec[4..n - 1]), upper);
      }
    }
  }

  /** The parts of the record that the program looks at. */
  lemma RecordByDigits(line: string)
    requires HexLine(line) && Pairs(line) >= 4
    ensures var r, n := RecordFrom(line, 1), Pairs(line);
            && r.Ok? && |r.value| == n
            && r.value[3] == Value(line, 7, 2)
            && Word16(r.value[1], r.value[2]) == Value(line, 3, 4)
            && (n >= 6 ==> Word16(r.value[4], r.value[5]) == Value(line, 9, 4))
  {
    hide HexPair, RecordFrom, HexValue, Value;
    RecordReads(line, 1);
    ValueOfPairs(line, 7);
    ValueOfPairs(line, 3);
    if Pairs(line) >= 6 {
      ValueOfPairs(line, 9);
    }
  }

  lemma DataByDigits(line: string, addr: nat)
    requires HexLine(line) && Pairs(line) >= 4 && RecordFrom(line, 1).Ok? && |RecordFrom(line, 1).value| == Pairs(line)
    ensures var rec, n := RecordFrom(line, 1).value, Pairs(line);
            n >= 5 ==>
              var ws := DataWrites(addr, rec[4..n - 1]);
              forall j :: 0 <= j < n - 5 ==> ws[j].addr == addr + j && ws[j].value == Value(line, 9 + 2 * j, 2)
  {
    hide HexPair, RecordFrom, HexValue, DataWrites, Value;
    RecordReads(line, 1);
    var rec, n := RecordFrom(line, 1).value, Pairs(line);
    if n >= 5 {
      var data := rec[4..n - 1];
      forall j | 0 <= j < n - 5
        ensures var w := DataWrites(addr, data)[j]; w.addr == addr + j && w.value == Value(line, 9 + 2 * j, 2)
      {
        DataWritesAt(addr, data, j);
        ValueOfPairs(line, 9 + 2 * j);
        assert data[j] == rec[4 + j];
      }
    }
  }

  /** Other lines: an empty one is an error, one that does not start with a colon is skipped, and one with a pair that
      cannot be read is an error. */
  lemma {:induction false} OtherLines(line: string, upper: nat, i: nat)
    ensures line == "" ==> LineEffect(line, upper) == Failed
    ensures line != "" && line[0] != ':' ==> LineEffect(line, upper) == Continue([], upper)
    ensures line != "" && line[0] == ':' && i % 2 == 1 && i < |line| - 1 && HexPair(line[i], line[i + 1]) == Err ==>
              LineEffect(line, upper) == Failed
  {
    hide HexPair;
    if i % 2 == 1 && i < |line| - 1 && HexPair(line[i], line[i + 1]) == Err {
      UnreadablePair(line, 1, i);
    }
  }

  lemma {:induction false} UnreadablePair(line: string, i: nat, k: nat)
    requires i <= k < |line| - 1 && i % 2 == 1 == k % 2 && HexPair(line[k], line[k + 1]) == Err
    ensures RecordFrom(line, i) == Err
    decreases k - i
  {
    hide HexPair;
    if i < k {
      UnreadablePair(line, i + 2, k);
    }
  }

  // ---------- A whole file

  /** A record that can be processed and does not end the file. */
  predicate Ordinary(line: string) {
    && HexLine(line) && Pairs(line) >= 4 && Value(line, 7, 2) != 1
    && (Value(line, 7, 2) == 4 ==> Pairs(line) >= 6)
    && (Value(line, 7, 2) == 2 ==> Pairs(line) >= 6 && 16 * Value(line, 9, 4) % 65536 == 0)
  }

  predicate AllOrdinary(lines: seq<string>) {
    forall k :: 0 <= k < |lines| ==> Ordinary(lines[k])
  }

  /** The upper address in force after some lines: that of the last one that sets it. */
  function UpperAfter(lines: seq<string>): nat
    requires AllOrdinary(lines)
  {
    if lines == [] then 0
    else
      var line := lines[|lines| - 1];
      if Value(line, 7, 2) == 4 then 65536 * Value(line, 9, 4)
      else if Value(line, 7, 2) == 2 then 16 * Value(line, 9, 4)
      else UpperAfter(lines[..|lines| - 1])
  }

  lemma OrdinaryMeaning(line: string, upper: nat)
    requires Ordinary(line)
    ensures var n, kind, effect := Pairs(line), Value(line, 7, 2), LineEffect(line, upper);
            && effect.Continue? && |effect.writes| == (if kind == 0 && n > 5 then n - 5 else 0)
            && (forall j :: 0 <= j < |effect.writes| ==>
                  effect.writes[j].addr == upper + Value(line, 3, 4) + j
                  && effect.writes[j].value == Value(line, 9 + 2 * j, 2))
            && effect.upper == (if kind == 4 then 65536 * Value(line, 9, 4)
                                else if kind == 2 then 16 * Value(line, 9, 4) else upper)
  {
    hide LineEffect, Value, HexValue;
    HexLineMeaning(line, upper);
  }

  lemma {:induction false} WritesThrough(lines: seq<string>, more: seq<string>)
    requires AllOrdinary(lines)
    ensures Writes(lines, 0).Ok?
    ensures Writes(lines + more, 0) == Prepended(Writes(lines, 0).value, Writes(more, UpperAfter(lines)))
  {
    hide LineEffect, HexLine, Value, Ordinary;
    if lines == [] {
      assert lines + more == more;
      PrependedTwice([], [], Writes(more, 0));
    } else {
      var front, line := lines[..|lines| - 1], lines[|lines| - 1];
      var upper := UpperAfter(front);
      OrdinaryMeaning(line, upper);
      var ws := LineEffect(line, upper).writes;
      WritesThrough(front, [line] + more);
      assert front + ([line] + more) == lines + more && ([line] + more)[1..] == more;
      PrependedTwice(Writes(front, 0).value, ws, Writes(more, UpperAfter(lines)));
      WritesThrough(front, [line]);
      assert front + [line] == lines && [line][1..] == [];
      PrependedTwice(Writes(front, 0).value, ws, Ok([]));
      assert Writes(front, 0).value + ws + [] == Writes(front, 0).value + ws;
    }
  }

  /** Line by line: a data record adds its bytes, in order, at the upper address that the last address record before it has
      set; other records add none. */
  lemma OneMoreLine(lines: seq<string>, line: string)
    requires AllOrdinary(lines) && Ordinary(line)
    ensures Writes(lines, 0).Ok? && Writes(lines + [line], 0).Ok? && Writes([], 0) == Ok([])
    ensures var before, after := Writes(lines, 0).value, Writes(lines + [line], 0).value;
            && |after| == |before| + (if Value(line, 7, 2) == 0 && Pairs(line) > 5 then Pairs(line) - 5 else 0)
            && after[..|before|] == before
            && forall j :: 0 <= j < |after| - |before| ==>
                 after[|before| + j].addr == UpperAfter(lines) + Value(line, 3, 4) + j
                 && after[|before| + j].value == Value(line, 9 + 2 * j, 2)
  {
    hide LineEffect, HexLine, Value, HexValue, Ordinary, Pairs, Writes;
    WritesOneMore(lines, line);
    OrdinaryMeaning(line, UpperAfter(lines));
    AppendedAt(Writes(lines, 0).value, LineEffect(line, UpperAfter(lines)).writes);
  }

  lemma WritesOneMore(lines: seq<string>, line: string)
    requires AllOrdinary(lines) && Ordinary(line)
    ensures Writes(lines, 0).Ok? && Writes([], 0) == Ok([]) && LineEffect(line, UpperAfter(lines)).Continue?
    ensures Writes(lines + [line], 0) == Ok(Writes(lines, 0).value + LineEffect(line, UpperAfter(lines)).writes)
  {
    hide LineEffect, HexLine, Value, HexValue, Ordinary, Pairs;
    WritesThrough(lines, [line]);
    OrdinaryMeaning(line, UpperAfter(lines));
    assert [line][1..] == [];
    PrependedTwice(LineEffect(line, UpperAfter(lines)).writes, [], Ok([]));
    var ws := LineEffect(line, UpperAfter(lines)).writes;
    assert ws + [] == ws;
  }

  lemma AppendedAt<T>(a: seq<T>, b: seq<T>)
    ensures (a + b)[..|a|] == a && forall j :: 0 <= j < |b| ==> (a + b)[|a| + j] == b[j]
  {
  }

  /** Nothing after the end-of-file record is looked at; a line before it that fails makes the file fail. */
  lemma EndOfLines(lines: seq<string>, last: string, rest: seq<string>)
    requires AllOrdinary(lines)
    ensures HexLine(last) && Pairs(last) >= 4 && Value(last, 7, 2) == 1 ==>
              Writes(lines + ([last] + rest), 0) == Writes(lines, 0)
    ensures LineEffect(last, UpperAfter(lines)) == Failed ==> Writes(lines + ([last] + rest), 0) == Err
  {
    hide LineEffect, HexLine, Value, HexValue, Ordinary, Pairs;
    WritesThrough(lines, [last] + rest);
    if HexLine(last) {
      HexLineMeaning(last, UpperAfter(lines));
    }
    assert Writes(lines, 0).value + [] == Writes(lines, 0).value;
  }
}
