/** `duration/duration.go`: printing a duration as years, days, hours and minutes, and reading it back.
    Durations are 64-bit counts of nanoseconds. Printing goes through floating point for days, hours and minutes. */
module Durations {
  import opened Doubles
  import opened Floats
  import opened Numerals
  import opened Options
  import opened Powers
  import opened Times

  // ---------- Format

  function Joined(parts: seq<string>): string {
    if parts == [] then []
    else if |parts| == 1 then parts[0]
    else parts[0] + " " + Joined(parts[1..])
  }

  /** Which parts are printed of a duration's years, days, hours and minutes. */
  function Chosen(dur: int, y: int, d: int, h: int, m: int): seq<(int, char)> {
    (if dur >= YEAR then [(y, 'y')] else [])
    + (if dur >= DAY then [(d, 'd')] else [])
    + (if dur >= HOUR then [(h, 'h')] else [])
    + [(m, 'm')]
  }

  /** What is to be printed, for any duration, negative ones included. */
  function Parts(dur: int): seq<(int, char)> {
    Chosen(dur, Quot(dur, YEAR), Rem(Quot(dur, DAY), 365), Rem(Quot(dur, HOUR), 24), Rem(Quot(dur, MINUTE), 60))
  }

  /** The same with the numbers the code computes. */
  function FloatParts(dur: int): seq<(int, char)> {
    Chosen(dur, Quot(dur, YEAR), Rem(Trunc(Double(Hours(dur) / 24.0)), 365), Rem(Trunc(Hours(dur)), 24),
           Rem(Trunc(Minutes(dur)), 60))
  }

  function Printed(parts: seq<(int, char)>): seq<string> {
    if parts == [] then [] else [Decimal(parts[0].0) + [parts[0].1]] + Printed(parts[1..])
  }

  method Format(dur: int) returns (s: string)
    requires IsInt64(dur)
    ensures s == Joined(Printed(FloatParts(dur)))
    ensures !CarriesOver(dur) ==> s == Joined(Printed(Parts(dur)))
  {
    hide Hours, Minutes, Double, Trunc, Quot, Rem, CarriesOver, Decimal, Joined, Printed, Parts;
    ghost var exact := !CarriesOver(dur);
    if exact {
      FloatPartsExact(dur);
    }
    var retSlice: seq<string> := [];
    PrintedNone();
    ghost var parts: seq<(int, char)> := [];
    if dur >= YEAR {
      var n := Quot(dur, YEAR);
      retSlice := retSlice + [Decimal(n) + "y"];
      PrintedOneMore(parts, n, 'y');
      parts := parts + [(n, 'y')];
    }
    if dur >= DAY {
      var n := Rem(Trunc(Double(Hours(dur) / 24.0)), 365);
      retSlice := retSlice + [Decimal(n) + "d"];
      PrintedOneMore(parts, n, 'd');
      parts := parts + [(n, 'd')];
    }
    if dur >= HOUR {
      var n := Rem(Trunc(Hours(dur)), 24);
      retSlice := retSlice + [Decimal(n) + "h"];
      PrintedOneMore(parts, n, 'h');
      parts := parts + [(n, 'h')];
    }
    var n := Rem(Trunc(Minutes(dur)), 60);
    retSlice := retSlice + [Decimal(n) + "m"];
    PrintedOneMore(parts, n, 'm');
    assert parts + [(n, 'm')] == FloatParts(dur);
    s := Joined(retSlice);
  }

  /** Rounding carries the minutes or the hours into the next whole one. */
  predicate CarriesOver(dur: int)
    requires IsInt64(dur)
  {
    NextMinute(Abs(dur)) || NextHour(Abs(dur))
  }

  /** Elsewhere, floating point makes no difference. */
  lemma FloatPartsExact(dur: int)
    requires IsInt64(dur) && !CarriesOver(dur)
    ensures FloatParts(dur) == Parts(dur)
  {
    FloatsIff(dur);
    ExactQuotients(dur);
    hide Hours, Minutes, Double, Trunc, Quot, Rem, NextMinute, NextHour;
  }

  lemma ExactQuotients(dur: int)
    requires IsInt64(dur) && !CarriesOver(dur)
    ensures Quot(dur, MINUTE) == if dur < 0 then -MinutesOf(Abs(dur)) else MinutesOf(Abs(dur))
    ensures 0 <= dur ==> Quot(dur, HOUR) == HoursOf(dur) && Quot(dur, DAY) == HoursOf(dur) / 24
  {
    if 0 <= dur {
      DivOfDiv(dur, HOUR, 24);
    }
    hide NextMinute, NextHour;
  }

  lemma PrintedNone()
    ensures Printed([]) == []
  {
  }

  lemma {:induction false} PrintedOneMore(parts: seq<(int, char)>, n: int, u: char)
    ensures Printed(parts + [(n, u)]) == Printed(parts) + [Decimal(n) + [u]]
  {
    if parts == [] {
      assert parts + [(n, u)] == [(n, u)];
    } else {
      assert (parts + [(n, u)])[0] == parts[0] && (parts + [(n, u)])[1..] == parts[1..] + [(n, u)];
      PrintedOneMore(parts[1..], n, u);
    }
  }

  // ---------- Parse

  predicate IsUnit(c: char) {
    c == 'y' || c == 'd' || c == 'h' || c == 'm'
  }

  function UnitSize(c: char): int {
    if c == 'y' then YEAR else if c == 'd' then DAY else if c == 'h' then HOUR else MINUTE
  }

  /** What the tokenizer does with the rest `f` of the input, with the digits `num` collected so far: the
      numbers and units it puts out, or nothing if it stops with an error. Digits left at the end are dropped. */
  function Tokens(f: string, num: string): Option<seq<string>> {
    if f == [] then Some([])
    else if IsDigit(f[0]) then Tokens(f[1..], num + [f[0]])
    else if IsUnit(f[0]) then
      if num == [] then None
      else
        match Tokens(f[1..], [])
        case None => None
        case Some(ts) => Some([num, [f[0]]] + ts)
    else if f[0] == ' ' then Tokens(f[1..], num)
    else None
  }

  method Tokenize(f: string) returns (ret: seq<string>, ok: bool)
    ensures ok <==> Tokens(f, []).Some?
    ensures ok ==> ret == Tokens(f, []).value
  {
    ret := [];
    var curNum: string := [];
    assert f[0..] == f && forall ts: seq<string> :: [] + ts == ts;
    for i := 0 to |f|
      invariant Tokens(f, []) ==
                match Tokens(f[i..], curNum) case None => None case Some(ts) => Some(ret + ts)
    {
      var c := f[i];
      assert f[i..][0] == c && f[i..][1..] == f[i+1..];
      if IsDigit(c) {
        curNum := curNum + [c];
      } else if IsUnit(c) {
        if |curNum| == 0 {
          return ret, false;
        }
        assert forall ts: seq<string> :: ret + ([curNum, [c]] + ts) == ret + [curNum] + [[c]] + ts;
        ret := ret + [curNum];
        curNum := [];
        ret := ret + [[c]];
      } else if c != ' ' {
        return ret, false;
      }
    }
    assert ret + [] == ret;
    ok := true;
  }

  datatype ParseResult = Parsed(dur: int) | Malformed | OutOfRange

  /** Adding up tokens. A number that does not fit into 64 bits makes the program panic. */
  function Summed(tokens: seq<string>, curNum: int, dur: int): ParseResult {
    if tokens == [] then Parsed(dur)
    else if |tokens[0]| == 1 && IsUnit(tokens[0][0]) then
      Summed(tokens[1..], curNum, Wrap(dur + Wrap(UnitSize(tokens[0][0]) * curNum)))
    else if !AllDigits(tokens[0]) || ValueOf(tokens[0]) > MAX_INT64 then OutOfRange
    else Summed(tokens[1..], ValueOf(tokens[0]), dur)
  }

  function ParseSpec(f: string): ParseResult {
    match Tokens(f, [])
    case None => Malformed
    case Some(tokens) => Summed(tokens, 0, 0)
  }

  method Parse(f: string) returns (r: ParseResult)
    ensures r == ParseSpec(f)
  {
    var tokens, ok := Tokenize(f);
    if !ok {
      return Malformed;
    }
    var dur, curNum := 0, 0;
    for i := 0 to |tokens|
      invariant Summed(tokens[i..], curNum, dur) == Summed(tokens, 0, 0)
    {
      var token := tokens[i];
      assert tokens[i..][0] == token && tokens[i..][1..] == tokens[i+1..];
      if token == "y" {
        dur := Wrap(dur + Wrap(YEAR * curNum));
      } else if token == "d" {
        dur := Wrap(dur + Wrap(DAY * curNum));
      } else if token == "h" {
        dur := Wrap(dur + Wrap(HOUR * curNum));
      } else if token == "m" {
        dur := Wrap(dur + Wrap(MINUTE * curNum));
      } else {
        if !AllDigits(token) || ValueOf(token) > MAX_INT64 {
          return OutOfRange;
        }
        curNum := ValueOf(token);
      }
    }
    assert tokens[|tokens|..] == [];
    return Parsed(dur);
  }

  // ---------- what is read, for any input

  function NoSpaces(f: string): string {
    if f == [] then [] else (if f[0] == ' ' then [] else [f[0]]) + NoSpaces(f[1..])
  }

  /** A number and a unit, any number of times. */
  predicate IsAmounts(ts: seq<string>) {
    ts == [] ||
    (|ts| >= 2 && ts[0] != [] && (forall i | 0 <= i < |ts[0]| :: '0' <= ts[0][i] <= '9')
     && (ts[1] == "y" || ts[1] == "d" || ts[1] == "h" || ts[1] == "m") && IsAmounts(ts[2..]))
  }

  function Text(ts: seq<string>): string {
    if ts == [] then [] else ts[0] + Text(ts[1..])
  }

  /** But for its spaces the input is the text of these amounts, and then digits that are ignored. */
  ghost predicate Reads(f: string, ts: seq<string>) {
    IsAmounts(ts) && exists tail :: TextAndTail(NoSpaces(f), ts, tail)
  }

  ghost predicate TextAndTail(f: string, ts: seq<string>, tail: string) {
    f == Text(ts) + tail && forall i | 0 <= i < |tail| :: '0' <= tail[i] <= '9'
  }

  /** The tokenizer accepts exactly the inputs that are amounts, and splits them into these. */
  lemma TokensIff(f: string, ts: seq<string>)
    ensures Tokens(f, []) == Some(ts) <==> Reads(f, ts)
  {
    TokensGoOn(f, [], ts);
    assert [] + NoSpaces(f) == NoSpaces(f);
  }

  lemma {:induction false} TokensGoOn(f: string, num: string, ts: seq<string>)
    requires AllDigits(num)
    ensures Tokens(f, num) == Some(ts) <==> IsAmounts(ts) && exists tail :: TextAndTail(num + NoSpaces(f), ts, tail)
  {
    if f == [] {
      assert num + NoSpaces(f) == num;
      hide TextAndTail, IsAmounts, Text;
      OnlyDigits(num, ts);
    } else {
      var c, rest := f[0], f[1..];
      NextCharacter(f, num);
      assert IsDigit(c) ==> AllDigits(num + [c]);
      assert [] + NoSpaces(rest) == NoSpaces(rest);
      hide TextAndTail, IsAmounts, Text, Tokens, NoSpaces, AllDigits;
      if IsDigit(c) {
        TokensGoOn(rest, num + [c], ts);
      } else if c == ' ' {
        TokensGoOn(rest, num, ts);
      } else if IsUnit(c) {
        UnitMeans(f, num, ts);
        UnitReads(NoSpaces(rest), num, c, ts);
        if |ts| >= 2 {
          NoDigits();
          TokensGoOn(rest, [], ts[2..]);
        }
      } else {
        NothingElse(num, c, NoSpaces(rest), ts);
      }
    }
  }

  lemma NoDigits()
    ensures AllDigits([])
  {
  }

  lemma NextCharacter(f: string, num: string)
    requires f != []
    ensures IsDigit(f[0]) ==> Tokens(f, num) == Tokens(f[1..], num + [f[0]])
    ensures f[0] == ' ' ==> Tokens(f, num) == Tokens(f[1..], num) && NoSpaces(f) == NoSpaces(f[1..])
    ensures f[0] != ' ' ==> num + NoSpaces(f) == num + [f[0]] + NoSpaces(f[1..])
    ensures !IsDigit(f[0]) && f[0] != ' ' && !IsUnit(f[0]) ==> Tokens(f, num) == None
  {
  }

  /** Digits alone are all tail. */
  lemma OnlyDigits(num: string, ts: seq<string>)
    requires AllDigits(num)
    ensures ts == [] <==> IsAmounts(ts) && exists tail :: TextAndTail(num, ts, tail)
  {
    if ts == [] {
      assert [] + num == num;
      assert TextAndTail(num, ts, num);
    } else if IsAmounts(ts) && exists tail :: TextAndTail(num, ts, tail) {
      var tail :| TextAndTail(num, ts, tail);
      AmountFirst(ts, tail);
      assert num[|ts[0]|] == ts[1][0];
    }
  }

  lemma AmountFirst(ts: seq<string>, tail: string)
    requires IsAmounts(ts) && ts != []
    ensures Text(ts) + tail == ts[0] + ts[1] + (Text(ts[2..]) + tail) && |ts[1]| == 1 && IsUnit(ts[1][0])
    ensures AllDigits(ts[0]) && ts[0] != []
  {
    assert ts[1..][0] == ts[1] && ts[1..][1..] == ts[2..];
    assert Text(ts) == ts[0] + (ts[1] + Text(ts[2..]));
  }

  /** Digits up to the first other character are one number. */
  lemma SameNumber(s: string, c: char, x: string, t: string, d: char, y: string)
    requires AllDigits(s) && AllDigits(t) && !IsDigit(c) && !IsDigit(d) && s + [c] + x == t + [d] + y
    ensures s == t && c == d && x == y
  {
    var l, r := s + [c] + x, t + [d] + y;
    assert l[|s|] == c && r[|t|] == d && s == l[..|s|] && t == r[..|t|];
    assert x == l[|s|+1..] && y == r[|t|+1..];
    assert |s| == |t|;
  }

  lemma UnitMeans(f: string, num: string, ts: seq<string>)
    requires f != [] && IsUnit(f[0])
    ensures Tokens(f, num) == Some(ts) <==>
              num != [] && |ts| >= 2 && ts[0] == num && ts[1] == [f[0]] && Tokens(f[1..], []) == Some(ts[2..])
  {
    if |ts| >= 2 {
      assert ts[0] == num && ts[1] == [f[0]] ==> ts == [num, [f[0]]] + ts[2..];
    }
    match Tokens(f[1..], [])
    case None =>
    case Some(us) => assert ([num, [f[0]]] + us)[2..] == us;
  }

  lemma UnitReads(x: string, num: string, c: char, ts: seq<string>)
    requires AllDigits(num) && IsUnit(c)
    ensures IsAmounts(ts) && (exists tail :: TextAndTail(num + [c] + x, ts, tail)) <==>
              && num != [] && |ts| >= 2 && ts[0] == num && ts[1] == [c]
              && IsAmounts(ts[2..]) && exists tail :: TextAndTail(x, ts[2..], tail)
  {
    if IsAmounts(ts) && exists tail :: TextAndTail(num + [c] + x, ts, tail) {
      var tail :| TextAndTail(num + [c] + x, ts, tail);
      CharIsThere(num, c, x, ts, tail);
      AmountFirst(ts, tail);
      hide TextAndTail, Text;
      SameNumber(num, c, x, ts[0], ts[1][0], Text(ts[2..]) + tail);
      RestReads(x, ts, tail);
    }
    if num != [] && |ts| >= 2 && ts[0] == num && ts[1] == [c] && IsAmounts(ts[2..]) && exists tail ::
        TextAndTail(x, ts[2..], tail) {
      var tail :| TextAndTail(x, ts[2..], tail);
      AmountsGrow(ts, c);
      AmountFirst(ts, tail);
      assert TextAndTail(num + [c] + x, ts, tail);
    }
  }

  lemma RestReads(x: string, ts: seq<string>, tail: string)
    requires IsAmounts(ts) && ts != [] && x == Text(ts[2..]) + tail && forall i | 0 <= i < |tail| :: IsDigit(tail[i])
    ensures IsAmounts(ts[2..]) && TextAndTail(x, ts[2..], tail)
  {
  }

  lemma AmountsGrow(ts: seq<string>, c: char)
    requires |ts| >= 2 && ts[0] != [] && AllDigits(ts[0]) && ts[1] == [c] && IsUnit(c) && IsAmounts(ts[2..])
    ensures IsAmounts(ts)
  {
  }

  /** A character that is no digit is not in the tail. */
  lemma CharIsThere(num: string, c: char, x: string, ts: seq<string>, tail: string)
    requires !IsDigit(c) && TextAndTail(num + [c] + x, ts, tail)
    ensures ts != [] && forall i | 0 <= i < |tail| :: IsDigit(tail[i])
  {
    var f := num + [c] + x;
    assert f[|num|] == c && AllDigits(tail);
  }

  lemma NothingElse(num: string, c: char, x: string, ts: seq<string>)
    requires AllDigits(num) && !IsDigit(c) && !IsUnit(c)
    ensures !(IsAmounts(ts) && exists tail :: TextAndTail(num + [c] + x, ts, tail))
  {
    if IsAmounts(ts) && exists tail :: TextAndTail(num + [c] + x, ts, tail) {
      var tail :| TextAndTail(num + [c] + x, ts, tail);
      CharIsThere(num, c, x, ts, tail);
      AmountFirst(ts, tail);
      SameNumber(num, c, x, ts[0], ts[1][0], Text(ts[2..]) + tail);
    }
  }

  /** What an amount is, in nanoseconds. */
  function Nanoseconds(number: nat, unit: string): int {
    number * if unit == "y" then 31_536_000_000_000_000 else if unit == "d" then 86_400_000_000_000
             else if unit == "h" then 3_600_000_000_000 else 60_000_000_000
  }

  function SumOf(ts: seq<string>): int
    requires IsAmounts(ts)
  {
    if ts == [] then 0 else Nanoseconds(ValueOf(ts[0]), ts[1]) + SumOf(ts[2..])
  }

  predicate AllFit(ts: seq<string>)
    requires IsAmounts(ts)
  {
    ts == [] || (ValueOf(ts[0]) <= 0x7FFF_FFFF_FFFF_FFFF && AllFit(ts[2..]))
  }

  lemma FirstAmount(ts: seq<string>)
    requires IsAmounts(ts) && ts != []
    ensures IsAmounts(ts[2..]) && SumOf(ts) == Nanoseconds(ValueOf(ts[0]), ts[1]) + SumOf(ts[2..])
    ensures AllFit(ts) <==> ValueOf(ts[0]) <= 0x7FFF_FFFF_FFFF_FFFF && AllFit(ts[2..])
  {
  }

  lemma OneAmount(ts: seq<string>, curNum: int, dur: int)
    requires IsAmounts(ts) && ts != []
    ensures var n, u := ValueOf(ts[0]), ts[1][0];
            && IsUnit(u)
            && Summed(ts, curNum, dur) == if n > 0x7FFF_FFFF_FFFF_FFFF then OutOfRange
               else Summed(ts[2..], n, Wrap(dur + Wrap(UnitSize(u) * n)))
  {
    hide Wrap, UnitSize, ValueOf;
    assert IsDigit(ts[0][0]) && IsUnit(ts[1][0]);
    assert ts[1..][0] == ts[1] && ts[1..][1..] == ts[2..];
    assert Summed(ts[1..], ValueOf(ts[0]), dur)
        == Summed(ts[2..], ValueOf(ts[0]), Wrap(dur + Wrap(UnitSize(ts[1][0]) * ValueOf(ts[0]))));
  }

  lemma {:induction false} SummedAmounts(ts: seq<string>, curNum: int, dur: int)
    requires IsAmounts(ts) && IsInt64(dur)
    ensures Summed(ts, curNum, dur) == if AllFit(ts) then Parsed(Wrap(dur + SumOf(ts))) else OutOfRange
    decreases |ts|
  {
    if ts != [] {
      var n, u := ValueOf(ts[0]), ts[1][0];
      assert ts[1] == [u];
      OneAmount(ts, curNum, dur);
      FirstAmount(ts);
      hide *;
      if n <= 0x7FFF_FFFF_FFFF_FFFF {
        var next := Wrap(dur + Wrap(UnitSize(u) * n));
        SummedAmounts(ts[2..], n, next);
        AmountIs(n, u);
        WrapSum(dur, UnitSize(u) * n);
        WrapSum(SumOf(ts[2..]), dur + UnitSize(u) * n);
      }
    }
  }

  lemma AmountIs(n: nat, u: char)
    requires IsUnit(u)
    ensures UnitSize(u) * n == Nanoseconds(n, [u])
  {
  }

  /** Parsing, for every input: amounts whose numbers fit into 64 bits give their sum, wrapped around; a number that
      does
      not fit makes the program panic; whatever is not amounts is refused. */
  lemma ParseIff(f: string)
    ensures ParseSpec(f) == Malformed <==> forall ts :: !Reads(f, ts)
    ensures forall ts | IsAmounts(ts) && Reads(f, ts) :: ParseSpec(f) == if AllFit(ts) then Parsed(Wrap(SumOf(ts)))
            else OutOfRange
  {
    hide Reads, Summed, Tokens, Wrap;
    forall ts
      ensures Tokens(f, []) == Some(ts) <==> Reads(f, ts)
    {
      TokensIff(f, ts);
    }
    forall ts | IsAmounts(ts) && Reads(f, ts)
      ensures ParseSpec(f) == if AllFit(ts) then Parsed(Wrap(SumOf(ts))) else OutOfRange
    {
      SummedAmounts(ts, 0, 0);
    }
    match Tokens(f, [])
    case None =>
    case Some(ts) => ReadsAmounts(f, ts); SummedAmounts(ts, 0, 0);
  }

  lemma ReadsAmounts(f: string, ts: seq<string>)
    requires Reads(f, ts)
    ensures IsAmounts(ts)
  {
  }

  // ---------- there and back

  lemma {:induction false} TokensOfDigits(s: string, rest: string, num: string)
    requires AllDigits(s)
    ensures Tokens(s + rest, num) == Tokens(rest, num + s)
  {
    if s == [] {
      assert s + rest == rest && num + s == num;
    } else {
      assert (s + rest)[0] == s[0] && (s + rest)[1..] == s[1..] + rest;
      TokensOfDigits(s[1..], rest, num + [s[0]]);
      assert num + [s[0]] + s[1..] == num + s;
    }
  }

  /** Numbers that are not negative, with known units. */
  ghost predicate Natural(parts: seq<(int, char)>) {
    forall i | 0 <= i < |parts| :: 0 <= parts[i].0 && IsUnit(parts[i].1)
  }

  function TokenList(parts: seq<(int, char)>): seq<string> {
    if parts == [] then [] else [Decimal(parts[0].0), [parts[0].1]] + TokenList(parts[1..])
  }

  lemma TokensOfPart(n: int, u: char, rest: string)
    requires 0 <= n && IsUnit(u)
    ensures Tokens(Decimal(n) + [u] + rest, []) ==
              match Tokens(rest, []) case None => None case Some(ts) => Some([Decimal(n), [u]] + ts)
  {
    NumeralReadsBack(n);
    var tail := [u] + rest;
    assert Decimal(n) + [u] + rest == Numeral(n) + tail;
    TokensOfDigits(Numeral(n), tail, []);
    assert [] + Numeral(n) == Numeral(n);
    assert tail[0] == u && tail[1..] == rest;
  }

  lemma SpacesAreIgnored(s: string)
    ensures Tokens(" " + s, []) == Tokens(s, [])
  {
    assert (" " + s)[0] == ' ' && (" " + s)[1..] == s;
  }

  lemma PrintedCons(parts: seq<(int, char)>)
    requires parts != []
    ensures var x, rest := Decimal(parts[0].0) + [parts[0].1], Printed(parts[1..]);
            Joined(Printed(parts)) == if parts[1..] == [] then x + [] else x + (" " + Joined(rest))
  {
    hide Decimal;
    var x, rest := Decimal(parts[0].0) + [parts[0].1], Printed(parts[1..]);
    assert Printed(parts)[0] == x && Printed(parts)[1..] == rest;
    assert x + [] == x;
    assert x + " " + Joined(rest) == x + (" " + Joined(rest));
  }

  lemma {:induction false} TokensOfPrinted(parts: seq<(int, char)>)
    requires Natural(parts)
    ensures Tokens(Joined(Printed(parts)), []) == Some(TokenList(parts))
  {
    if parts != [] {
      var n, u, rest := parts[0].0, parts[0].1, Joined(Printed(parts[1..]));
      TokensOfPrinted(parts[1..]);
      PrintedCons(parts);
      TokensOfPart(n, u, []);
      TokensOfPart(n, u, " " + rest);
      SpacesAreIgnored(rest);
      assert Tokens([], []) == Some([]) && (parts[1..] == [] ==> TokenList(parts[1..]) == []);
      hide Tokens, Decimal, Joined, Printed;
    }
  }

  function Total(parts: seq<(int, char)>): int {
    if parts == [] then 0 else parts[0].0 * UnitSize(parts[0].1) + Total(parts[1..])
  }

  lemma {:induction false} TotalNatural(parts: seq<(int, char)>)
    requires Natural(parts)
    ensures Total(parts) >= 0
  {
    if parts != [] {
      TotalNatural(parts[1..]);
      UnitProduct(parts[0].0, parts[0].1);
    }
  }

  lemma UnitProduct(n: int, u: char)
    requires 0 <= n
    ensures n <= n * UnitSize(u) && UnitSize(u) * n == n * UnitSize(u)
  {
    assert UnitSize(u) >= 1;
    assert n * UnitSize(u) >= n * 1;
  }

  /** Numbers of up to 64 bits. */
  ghost predicate Fitting(parts: seq<(int, char)>) {
    forall i | 0 <= i < |parts| :: parts[i].0 <= MAX_INT64
  }

  /** What is read is the sum of the parts, wrapped around. */
  lemma {:induction false} SummedWraps(parts: seq<(int, char)>, curNum: int, dur: int)
    requires Natural(parts) && Fitting(parts) && IsInt64(dur)
    ensures Summed(TokenList(parts), curNum, dur) == Parsed(Wrap(dur + Total(parts)))
  {
    if parts != [] {
      var n, u, rest := parts[0].0, parts[0].1, parts[1..];
      var next := Wrap(dur + Wrap(UnitSize(u) * n));
      TokenListCons(parts);
      hide Summed, TokenList, Wrap, UnitSize, ValueOf;
      NumberThenUnit(TokenList(parts), curNum, dur, n, u);
      SummedWraps(rest, n, next);
      WrapSum(dur, UnitSize(u) * n);
      WrapSum(Total(rest), dur + UnitSize(u) * n);
    }
  }

  lemma TokenListCons(parts: seq<(int, char)>)
    requires parts != [] && Natural(parts)
    ensures var tokens := TokenList(parts);
            |tokens| >= 2 && tokens[0] == Numeral(parts[0].0) && tokens[1] == [parts[0].1]
                && tokens[2..] == TokenList(parts[1..])
  {
    hide Numeral;
  }

  lemma NumberThenUnit(tokens: seq<string>, curNum: int, dur: int, n: nat, u: char)
    requires |tokens| >= 2 && tokens[0] == Numeral(n) && tokens[1] == [u] && IsUnit(u) && n <= MAX_INT64
    ensures Summed(tokens, curNum, dur) == Summed(tokens[2..], n, Wrap(dur + Wrap(UnitSize(u) * n)))
  {
    NumeralReadsBack(n);
    assert IsDigit(Numeral(n)[0]);
    assert tokens[1..][0] == [u] && tokens[1..][1..] == tokens[2..];
    assert Summed(tokens, curNum, dur) == Summed(tokens[1..], n, dur);
  }

  /** If the whole fits into 64 bits, so does every product and every partial sum, and nothing wraps. */
  lemma {:induction false} SummedExactly(parts: seq<(int, char)>, curNum: int, dur: int)
    requires Natural(parts) && 0 <= dur && dur + Total(parts) <= MAX_INT64
    ensures Summed(TokenList(parts), curNum, dur) == Parsed(dur + Total(parts))
    ensures forall i | 0 <= i < |parts| :: parts[i].0 * UnitSize(parts[i].1) <= MAX_INT64
  {
    TotalNatural(parts);
    ProductsFit(parts, MAX_INT64);
    forall i | 0 <= i < |parts|
      ensures parts[i].0 <= MAX_INT64
    {
      UnitProduct(parts[i].0, parts[i].1);
    }
    hide Summed, TokenList, UnitSize;
    SummedWraps(parts, curNum, dur);
  }

  lemma {:induction false} ProductsFit(parts: seq<(int, char)>, limit: int)
    requires Natural(parts) && Total(parts) <= limit
    ensures forall i | 0 <= i < |parts| :: parts[i].0 * UnitSize(parts[i].1) <= limit
  {
    if parts != [] {
      TotalNatural(parts[1..]);
      UnitProduct(parts[0].0, parts[0].1);
      ProductsFit(parts[1..], limit);
      assert forall i | 1 <= i < |parts| :: parts[i] == parts[1..][i-1];
    }
  }

  lemma TotalOfCons(n: int, u: char, parts: seq<(int, char)>)
    ensures Total([(n, u)] + parts) == n * UnitSize(u) + Total(parts)
    ensures 0 <= n && IsUnit(u) && Natural(parts) ==> Natural([(n, u)] + parts)
  {
    assert ([(n, u)] + parts)[1..] == parts;
  }

  lemma ChosenTotal(dur: int, y: int, d: int, h: int, m: int)
    requires 0 <= y && 0 <= d && 0 <= h && 0 <= m
    requires (dur < YEAR ==> y == 0) && (dur < DAY ==> d == 0) && (dur < HOUR ==> h == 0)
    ensures Natural(Chosen(dur, y, d, h, m))
            && Total(Chosen(dur, y, d, h, m)) == y * YEAR + d * DAY + h * HOUR + m * MINUTE
  {
    var ph := if dur >= HOUR then [(h, 'h')] + [(m, 'm')] else [(m, 'm')];
    var pd := if dur >= DAY then [(d, 'd')] + ph else ph;
    var py := if dur >= YEAR then [(y, 'y')] + pd else pd;
    assert Chosen(dur, y, d, h, m) == py;
    hide Total, Natural;
    TotalOfSingle(m);
    TotalOfCons(h, 'h', [(m, 'm')]);
    TotalOfCons(d, 'd', ph);
    TotalOfCons(y, 'y', pd);
  }

  lemma TotalOfSingle(m: int)
    requires 0 <= m
    ensures Total([(m, 'm')]) == m * MINUTE && Natural([(m, 'm')])
  {
    assert [(m, 'm')][1..] == [];
  }

  lemma RemIsMod(x: nat, n: nat)
    requires n > 0
    ensures Rem(x, n) == x % n
  {
  }

  lemma DivOfDiv(x: int, a: int, b: int)
    requires a > 0 && b > 0 && a * b > 0
    ensures x / (a * b) == (x / a) / b
  {
    var q, r := x / a, x % a;
    var h, s := q / b, q % b;
    assert x == a * q + r && q == b * h + s;
    Regroup(a, b, h, s);
    BelowProduct(a, b, s, r);
    DivUnique(x, a * b, h, a * s + r);
  }

  lemma Regroup(a: int, b: int, h: int, s: int)
    ensures a * (b * h + s) == (a * b) * h + a * s
  {
    assert a * (b * h + s) == a * (b * h) + a * s;
    assert a * (b * h) == (a * b) * h;
  }

  lemma BelowProduct(a: int, b: int, s: int, r: int)
    requires 0 <= s < b && 0 <= r < a
    ensures 0 <= a * s + r < a * b
  {
    MultipleOf(a, b - s);
    assert a * (b - s) == a * b - a * s;
    assert 0 <= a * s;
  }

  lemma SplitMinutes(mins: nat)
    ensures mins / 525600 * 525600 + (mins / 1440) % 365 * 1440 + (mins / 60) % 24 * 60 + mins % 60 == mins
  {
    DivOfDiv(mins, 60, 24);
    DivOfDiv(mins, 1440, 365);
  }

  /** A duration is the sum of its printed parts, down to the minute. */
  lemma Split(dur: int)
    requires 0 <= dur
    ensures var y, d, h, m := dur / YEAR, (dur / DAY) % 365, (dur / HOUR) % 24, (dur / MINUTE) % 60;
            && y * YEAR + d * DAY + h * HOUR + m * MINUTE == (dur / MINUTE) * MINUTE
            && (dur < YEAR ==> y == 0) && (dur < DAY ==> d == 0) && (dur < HOUR ==> h == 0)
  {
    DivOfDiv(dur, MINUTE, 60);
    DivOfDiv(dur, MINUTE, 1440);
    DivOfDiv(dur, MINUTE, 525600);
    SplitMinutes(dur / MINUTE);
    NoneBelow(dur, YEAR);
    NoneBelow(dur, DAY);
    NoneBelow(dur, HOUR);
    InMinutes(dur / YEAR, (dur / DAY) % 365, (dur / HOUR) % 24, (dur / MINUTE) % 60, dur / MINUTE);
    hide *;
  }

  lemma NoneBelow(dur: int, unit: int)
    requires 0 <= dur && unit > 0
    ensures dur < unit ==> dur / unit == 0
  {
    if dur < unit {
      DivUnique(dur, unit, 0, dur);
    }
  }

  lemma InMinutes(y: int, d: int, h: int, m: int, mins: int)
    requires y * 525600 + d * 1440 + h * 60 + m == mins
    ensures y * YEAR + d * DAY + h * HOUR + m * MINUTE == mins * MINUTE
  {
  }

  lemma MinusFails(rest: string)
    ensures Tokens("-" + rest, []) == None
  {
    assert ("-" + rest)[0] == '-';
  }

  /** What the code prints for a duration that is not negative. */
  ghost predicate AreParts(dur: int, y: int, d: int, h: int, m: int)
    requires 0 <= dur <= MAX_INT64
  {
    && y == dur / YEAR && m == MinutesOf(dur) % 60
    && h == (if dur >= HOUR then HoursOf(dur) % 24 else 0)
    && d == (if dur >= DAY then (HoursOf(dur) / 24) % 365 else 0)
  }

  lemma FloatPartsAre(dur: int, y: int, d: int, h: int, m: int)
    requires 0 <= dur <= MAX_INT64 && AreParts(dur, y, d, h, m)
    ensures FloatParts(dur) == Chosen(dur, y, d, h, m)
  {
    hide Hours, Minutes, Double, Trunc, Quot, Rem, HoursOf, MinutesOf;
    FloatsIff(dur);
    QuotIsDiv(dur, YEAR);
    RemIsMod(HoursOf(dur) / 24, 365);
    RemIsMod(HoursOf(dur), 24);
    RemIsMod(MinutesOf(dur), 60);
  }

  lemma QuotIsDiv(x: nat, y: int)
    requires y > 0
    ensures Quot(x, y) == x / y
  {
  }

  /** The printed parts add up to the duration cut to the minute exactly if nothing is carried. */
  lemma PartsAddUpIff(dur: int, y: int, d: int, h: int, m: int)
    requires 0 <= dur <= MAX_INT64 && AreParts(dur, y, d, h, m)
    ensures y * YEAR + d * DAY + h * HOUR + m * MINUTE == (dur / MINUTE) * MINUTE <==> !CarriesOver(dur)
    ensures 0 <= y <= 292 && 0 <= d < 365 && 0 <= h < 24 && 0 <= m < 60
    ensures (dur < YEAR ==> y == 0) && (dur < DAY ==> d == 0) && (dur < HOUR ==> h == 0)
  {
    Split(dur);
    NoHourCarried(dur);
    SmallerQuotients(dur);
    hide NextMinute, NextHour, MinutesOf, HoursOf;
    MinutePart(dur);
    HourPart(dur);
    DayPart(dur);
    SameParts(d, h, m, (dur / DAY) % 365, (dur / HOUR) % 24, (dur / MINUTE) % 60);
  }

  /** What is shown: years from 365 days on, days from a day on, hours from an hour on, and minutes always, each below
      the next larger unit. */
  lemma PartsShown(dur: int, i: nat)
    requires 0 <= dur <= MAX_INT64 && i < |FloatParts(dur)|
    ensures |FloatParts(dur)| == if dur >= 31_536_000_000_000_000 then 4 else if dur >= 86_400_000_000_000 then 3
                                 else if dur >= 3_600_000_000_000 then 2 else 1
    ensures var part := FloatParts(dur)[i];
            && part.1 == "ydhm"[4-|FloatParts(dur)|+i]
            && 0 <= part.0 < match part.1 case 'y' => 293 case 'd' => 365 case 'h' => 24 case _ => 60
  {
    var y, m := dur / YEAR, MinutesOf(dur) % 60;
    var h := if dur >= HOUR then HoursOf(dur) % 24 else 0;
    var d := if dur >= DAY then (HoursOf(dur) / 24) % 365 else 0;
    assert AreParts(dur, y, d, h, m);
    hide HoursOf, MinutesOf, FloatParts, AreParts, CarriesOver;
    FloatPartsAre(dur, y, d, h, m);
    PartsAddUpIff(dur, y, d, h, m);
  }

  lemma MinutePart(dur: int)
    requires 0 <= dur <= MAX_INT64
    ensures 0 <= MinutesOf(dur) % 60 < 60 && (MinutesOf(dur) % 60 == (dur / MINUTE) % 60 <==> !NextMinute(dur))
  {
    hide NextMinute;
    NextModulo(dur / MINUTE);
  }

  lemma HourPart(dur: int)
    requires 0 <= dur <= MAX_INT64
    ensures 0 <= HoursOf(dur) % 24 < 24 && (HoursOf(dur) % 24 == (dur / HOUR) % 24 <==> !NextHour(dur))
  {
    hide NextHour;
    NextModulo(dur / HOUR);
  }

  lemma DayPart(dur: int)
    requires 0 <= dur <= MAX_INT64
    ensures 0 <= (HoursOf(dur) / 24) % 365 < 365
    ensures !NextHour(dur) ==> HoursOf(dur) / 24 == dur / DAY
  {
    hide NextHour;
    DivOfDiv(dur, HOUR, 24);
  }

  lemma NoHourCarried(dur: int)
    requires 0 <= dur <= MAX_INT64
    ensures dur < HOUR ==> !NextHour(dur)
  {
  }

  lemma SmallerQuotients(dur: int)
    requires 0 <= dur <= MAX_INT64
    ensures 0 <= dur / YEAR <= 292 && 0 <= dur / HOUR && 0 <= dur / MINUTE
    ensures (dur < DAY ==> dur / DAY == 0) && (dur < HOUR ==> dur / HOUR == 0)
  {
  }

  lemma SameParts(d: int, h: int, m: int, d': int, h': int, m': int)
    requires 0 <= h < 24 && 0 <= m < 60 && 0 <= h' < 24 && 0 <= m' < 60
    ensures d * DAY + h * HOUR + m * MINUTE == d' * DAY + h' * HOUR + m' * MINUTE <==> d == d' && h == h' && m == m'
  {
    var days, hours := d' - d, (d' - d) * 24 + (h' - h);
    if d * DAY + h * HOUR + m * MINUTE == d' * DAY + h' * HOUR + m' * MINUTE {
      assert m - m' == 60 * hours;
      assert hours == 0;
      assert h - h' == 24 * days;
    }
  }

  lemma NextModulo(q: nat)
    ensures (q + 1) % 60 != q % 60 && (q + 1) % 24 != q % 24
  {
  }

  /** Round trip: what is printed for a duration reads back as the duration, cut down to the minute, exactly when it is
      more than minus one minute and nothing is carried over. */
  lemma RoundTripIff(dur: int)
    requires IsInt64(dur)
    ensures ParseSpec(Joined(Printed(FloatParts(dur)))) == Parsed(Quot(dur, MINUTE) * MINUTE)
            <==> dur > -MINUTE && !CarriesOver(dur)
  {
    hide ParseSpec, Joined, Printed, FloatParts, Quot, Rem, CarriesOver, Trunc, Minutes;
    if dur >= 0 {
      ReadsBackIff(dur);
    } else {
      NegativePrinted(dur);
      NegativeReadsBack(Rem(Trunc(Minutes(dur)), 60));
    }
  }

  lemma ReadsBackIff(dur: int)
    requires 0 <= dur <= MAX_INT64
    ensures ParseSpec(Joined(Printed(FloatParts(dur)))) == Parsed(Quot(dur, MINUTE) * MINUTE) <==> !CarriesOver(dur)
  {
    var y, m := dur / YEAR, MinutesOf(dur) % 60;
    var h := if dur >= HOUR then HoursOf(dur) % 24 else 0;
    var d := if dur >= DAY then (HoursOf(dur) / 24) % 365 else 0;
    assert AreParts(dur, y, d, h, m);
    QuotIsDiv(dur, MINUTE);
    hide *;
    FloatPartsAre(dur, y, d, h, m);
    PartsAddUpIff(dur, y, d, h, m);
    ChosenReadsBack(dur, y, d, h, m);
    SumIsNear(dur, y, d, h, m);
    WrapFar(y * YEAR + d * DAY + h * HOUR + m * MINUTE, (dur / MINUTE) * MINUTE);
  }

  lemma ChosenReadsBack(dur: int, y: int, d: int, h: int, m: int)
    requires 0 <= y <= 292 && 0 <= d < 365 && 0 <= h < 24 && 0 <= m < 60
    requires (dur < YEAR ==> y == 0) && (dur < DAY ==> d == 0) && (dur < HOUR ==> h == 0)
    ensures ParseSpec(Joined(Printed(Chosen(dur, y, d, h, m))))
            == Parsed(Wrap(y * YEAR + d * DAY + h * HOUR + m * MINUTE))
  {
    var parts := Chosen(dur, y, d, h, m);
    assert Fitting(parts);
    hide *;
    ChosenTotal(dur, y, d, h, m);
    ReadsBack(parts);
  }

  lemma SumIsNear(dur: int, y: int, d: int, h: int, m: int)
    requires 0 <= dur <= MAX_INT64 && 0 <= y <= 292 && 0 <= d < 365 && 0 <= h < 24 && 0 <= m < 60
    ensures IsInt64((dur / MINUTE) * MINUTE)
    ensures -0x1_0000_0000_0000_0000 < y * YEAR + d * DAY + h * HOUR + m * MINUTE - (dur / MINUTE) * MINUTE
            < 0x1_0000_0000_0000_0000
  {
  }

  lemma ReadsBack(parts: seq<(int, char)>)
    requires Natural(parts) && Fitting(parts)
    ensures ParseSpec(Joined(Printed(parts))) == Parsed(Wrap(Total(parts)))
  {
    TokensOfPrinted(parts);
    hide Printed, Joined, Total, TokenList, Summed, Natural, Fitting;
    SummedWraps(parts, 0, 0);
  }

  /** In particular it does for all whole seconds that are not negative, and for everything below 4096 hours. */
  lemma RoundTripMostly(dur: int)
    requires IsInt64(dur) && (dur % SECOND == 0 || Abs(dur) < 4096 * HOUR)
    ensures ParseSpec(Joined(Printed(FloatParts(dur)))) == Parsed(Quot(dur, MINUTE) * MINUTE) <==> dur > -MINUTE
  {
    SecondsOf(dur);
    var x := Abs(dur);
    hide ParseSpec, Joined, Printed, FloatParts, NextMinute, NextHour, Quot, Abs;
    RoundTripIff(dur);
    if x < 4096 * HOUR {
      ShortClear(x);
    } else {
      WholeSecondsClear(x);
    }
  }

  lemma SecondsOf(dur: int)
    requires IsInt64(dur)
    ensures Abs(dur) <= -MIN_INT64 && (dur % SECOND == 0 ==> Abs(dur) % SECOND == 0)
  {
  }

  /** Where it does not: a nanosecond before 4097 hours, which are 170 days and 17 hours, the hour is one too many but
      the minute is not. */
  lemma NanosecondBefore()
    ensures var dur := 4097 * HOUR - 1;
            && CarriesOver(dur) && FloatParts(dur) == [(170, 'd'), (17, 'h'), (59, 'm')]
            && Parts(dur) == [(170, 'd'), (16, 'h'), (59, 'm')]
            && Joined(Printed(FloatParts(dur))) == "170d 17h 59m"
  {
    PrintedThere();
    NumbersThere();
    PartsThere();
    hide Parts, CarriesOver, FloatParts, HoursOf, MinutesOf, Joined, Printed;
    FloatPartsAre(4097 * HOUR - 1, 0, 170, 17, 59);
  }

  lemma DigitsThere()
    ensures Decimal(170) + ['d'] == "170d" && Decimal(17) + ['h'] == "17h" && Decimal(59) + ['m'] == "59m"
  {
    NumeralStep(17, '0');
    NumeralStep(1, '7');
    NumeralStep(5, '9');
  }

  lemma PrintedThere()
    ensures Joined(Printed([(170, 'd'), (17, 'h'), (59, 'm')])) == "170d 17h 59m"
  {
    var all, two, one: seq<(int, char)> := [(170, 'd'), (17, 'h'), (59, 'm')], [(17, 'h'), (59, 'm')], [(59, 'm')];
    DigitsThere();
    hide *;
    assert all[1..] == two && two[1..] == one && one[1..] == [];
    PrintedCons(one);
    PrintedCons(two);
    PrintedCons(all);
    assert "17h" + (" " + "59m") == "17h 59m" && "170d" + (" " + "17h 59m") == "170d 17h 59m";
  }

  lemma NumbersThere()
    ensures var dur := 4097 * HOUR - 1;
            CarriesOver(dur) && HoursOf(dur) == 4097 && MinutesOf(dur) == 245_819
  {
    var dur := 4097 * HOUR - 1;
    PerUnitThere();
    hide PerUnit;
    assert dur / HOUR == 4096 && dur % HOUR == HOUR - 1 && dur / MINUTE == 245_819 && dur % MINUTE == MINUTE - 1;
    assert NextHour(dur) && !NextMinute(dur);
  }

  lemma PartsThere()
    ensures Parts(4097 * HOUR - 1) == [(170, 'd'), (16, 'h'), (59, 'm')]
  {
  }

  lemma PerUnitThere()
    ensures PerUnit(4096) == 0x100_0000_0000 && PerUnit(245_819) == 0x8_0000_0000
  {
    SomePowers();
    SmallPowers();
    PowersThere();
    hide *;
    LogIs(4096, 12);
    LogIs(245_819, 17);
    PerUnitIsPow(4096);
    PerUnitIsPow(245_819);
  }

  lemma PowersThere()
    ensures Pow2(12) == 4096 && Pow2(13) == 8192 && Pow2(17) == 131_072 && Pow2(18) == 262_144
    ensures Pow2(35) == 0x8_0000_0000 && Pow2(40) == 0x100_0000_0000
  {
    SomePowers();
    SmallPowers();
    PowNext(11);
    PowNext(12);
    PowNext(13);
    PowNext(18);
    hide *;
    PowAdd(9, 8);
    PowAdd(26, 9);
    PowAdd(32, 8);
  }

  lemma NegativePrinted(dur: int)
    requires IsInt64(dur) && dur < 0
    ensures var m := Rem(Trunc(Minutes(dur)), 60);
            && Joined(Printed(FloatParts(dur))) == Decimal(m) + "m" && -60 < m <= 0
            && (dur > -MINUTE ==> m == 0 && Quot(dur, MINUTE) == 0 && !CarriesOver(dur))
            && (dur <= -MINUTE ==> Quot(dur, MINUTE) < 0)
  {
    NegativeQuotients(dur);
    hide Decimal, Minutes, Hours, Double, Trunc, Quot, Rem, MinutesOf, CarriesOver;
    FloatsIff(dur);
    var m := Rem(Trunc(Minutes(dur)), 60);
    NegativeRem(MinutesOf(-dur));
    assert FloatParts(dur) == [(m, 'm')];
    assert [(m, 'm')][1..] == [];
  }

  lemma NegativeRem(x: int)
    requires 0 <= x
    ensures -60 < Rem(-x, 60) <= 0 && (x == 0 ==> Rem(-x, 60) == 0)
  {
  }

  lemma NegativeQuotients(dur: int)
    requires IsInt64(dur) && dur < 0
    ensures dur > -MINUTE ==> MinutesOf(-dur) == 0 && Quot(dur, MINUTE) == 0 && !CarriesOver(dur)
    ensures dur <= -MINUTE ==> Quot(dur, MINUTE) < 0
    ensures MinutesOf(-dur) >= 0
  {
    hide PerUnit;
  }

  lemma NegativeReadsBack(m: int)
    requires -60 < m <= 0
    ensures ParseSpec(Decimal(m) + "m") == if m == 0 then Parsed(0) else Malformed
  {
    if m == 0 {
      assert Decimal(0) + ['m'] + [] == Decimal(0) + "m";
      TokensOfPart(0, 'm', []);
      NumeralReadsBack(0);
      assert [Decimal(0), ['m']] + [] == [Decimal(0), ['m']];
      assert [Decimal(0), ['m']][2..] == [];
      NumberThenUnit([Decimal(0), ['m']], 0, 0, 0, 'm');
    } else {
      assert Decimal(m) + "m" == "-" + (Numeral(-m) + "m");
      MinusFails(Numeral(-m) + "m");
    }
  }
}
