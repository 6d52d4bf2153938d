/** Dotted addresses: the parser and the printer of ip4_addr.cpp.

    An address is its four bytes in network order.
 */
module Numerals {

  predicate IsDigit(c: char) {
    '0' <= c <= '9'
  }

  predicate IsXDigit(c: char) {
    IsDigit(c) || 'a' <= c <= 'f' || 'A' <= c <= 'F'
  }

  /** isspace in the C locale. */
  predicate IsSpace(c: char) {
    c == ' ' || 9 as char <= c <= 13 as char
  }

  function DigitValue(c: char): (d: nat)
    requires IsXDigit(c)
    ensures d < 16 && (IsDigit(c) ==> d < 10)
  {
    if IsDigit(c) then (c - '0') as nat
    else if 'a' <= c <= 'f' then (c - 'a') as nat + 10
    else (c - 'A') as nat + 10
  }

  /** A character the parser takes into a number. */
  predicate Accepts(c: char, base: nat) {
    IsDigit(c) || (base == 16 && IsXDigit(c))
  }

  predicate AllAccepted(s: string, base: nat) {
    forall i :: 0 <= i < |s| ==> Accepts(s[i], base)
  }

  /** The number that digits stand for. */
  function Number(s: string, base: nat): nat
    requires AllAccepted(s, base)
  {
    if s == [] then 0 else Number(s[..|s| - 1], base) * base + DigitValue(s[|s| - 1])
  }

  lemma NumberOn(s: string, base: nat, c: char)
    requires AllAccepted(s, base) && Accepts(c, base)
    ensures AllAccepted(s + [c], base) && Number(s + [c], base) == Number(s, base) * base + DigitValue(c)
  {
    assert (s + [c])[..|s|] == s;
  }
}

module Ip4Addr {
  import opened Arithmetic
  import opened Numerals
  import opened Wrappers

  const WRAP: nat := 0x1_0000_0000

  /** Where the digits that start at i end. */
  function RunEnd(s: string, i: nat, base: nat): (j: nat)
    requires i <= |s|
    ensures i <= j <= |s| && AllAccepted(s[i..j], base) && (j < |s| ==> !Accepts(s[j], base))
    decreases |s| - i
  {
    if i < |s| && Accepts(s[i], base) then RunEnd(s, i + 1, base) else i
  }

  lemma RunEndUnique(s: string, i: nat, base: nat, j: nat)
    requires i <= j <= |s| && AllAccepted(s[i..j], base) && (j < |s| ==> !Accepts(s[j], base))
    ensures RunEnd(s, i, base) == j
  {
    var k := RunEnd(s, i, base);
    assert forall x :: i <= x < j ==> s[i..j][x - i] == s[x];
    assert forall x :: i <= x < k ==> s[i..k][x - i] == s[x];
  }

  datatype Part = Part(value: nat, next: nat)

  datatype Parts = Parts(values: seq<nat>, next: nat)

  /** The base of the number at i, and where its digits start. */
  function Prefix(s: string, i: nat): (nat, nat)
    requires i < |s|
  {
    if s[i] != '0' then (10, i)
    else if i + 1 < |s| && (s[i + 1] == 'x' || s[i + 1] == 'X') then (16, i + 2)
    else (8, i + 1)
  }

  /** One number: hexadecimal, octal or decimal, modulo 2^32. */
  function PartAt(s: string, i: nat): (p: Option<Part>)
    ensures p.Some? ==> i < p.value.next <= |s| && p.value.value < WRAP
  {
    if i >= |s| || !IsDigit(s[i]) then None
    else
      var (base, start) := Prefix(s, i);
      var end := RunEnd(s, start, base);
      Some(Part(Number(s[start..end], base) % WRAP, end))
  }

  type Reader = (string, nat) -> Option<Part>

  /** Up to four parts with dots between them, and where they end. */
  function PartsAt(read: Reader, s: string, i: nat, before: seq<nat>): (r: Option<Parts>)
    requires |before| <= 3
    ensures r.Some? ==> 1 <= |r.value.values| <= 4
    decreases 4 - |before|
  {
    var p := read(s, i);
    if p == None then None
    else
      var Part(value, next) := p.value;
      if next < |s| && s[next] == '.' then
        if |before| >= 3 then None else PartsAt(read, s, next + 1, before + [value])
      else Some(Parts(before + [value], next))
  }

  /** All parts but the last are single bytes; the last fills the rest. */
  function Combine(parts: seq<nat>): Option<nat>
    requires 1 <= |parts| <= 4
  {
    var n := |parts| - 1;
    if parts[n] < LastLimit(n) && forall i :: 0 <= i < n ==> parts[i] <= 0xff then
      Some(parts[n] + (if n > 0 then parts[0] * 0x1_00_00_00 else 0)
                    + (if n > 1 then parts[1] * 0x1_00_00 else 0)
                    + (if n > 2 then parts[2] * 0x1_00 else 0))
    else None
  }

  function LastLimit(n: nat): nat {
    if n == 0 then WRAP else if n == 1 then 0x1_00_00_00 else if n == 2 then 0x1_00_00 else 0x1_00
  }

  /** The parts of an address as inet_addr() has them: all but the last are its
      leading bytes, and the last is all the rest. */
  lemma CombineMeans(parts: seq<nat>)
    requires 1 <= |parts| <= 4
    ensures |parts| == 1 ==> Combine(parts) == if parts[0] < 0x1_0000_0000 then Some(parts[0]) else None
    ensures |parts| == 2 ==>
              && (Combine(parts).Some? <==> parts[0] < 256 && parts[1] < 0x100_0000)
              && (Combine(parts).Some? ==> var a := Combine(parts).value;
                  a / 0x100_0000 == parts[0] && a % 0x100_0000 == parts[1])
    ensures |parts| == 3 ==>
              && (Combine(parts).Some? <==> parts[0] < 256 && parts[1] < 256 && parts[2] < 0x1_0000)
              && (Combine(parts).Some? ==> var a := Combine(parts).value;
                  a / 0x100_0000 == parts[0] && a / 0x1_0000 % 256 == parts[1] && a % 0x1_0000 == parts[2])
    ensures |parts| == 4 ==>
              && (Combine(parts).Some? <==> parts[0] < 256 && parts[1] < 256 && parts[2] < 256 && parts[3] < 256)
              && (Combine(parts).Some? ==> var a := Combine(parts).value;
                  && a / 0x100_0000 == parts[0] && a / 0x1_0000 % 256 == parts[1]
                  && a / 0x100 % 256 == parts[2] && a % 0x100 == parts[3])
  {
    if Combine(parts).Some? && |parts| > 1 {
      var a := Combine(parts).value;
      Leading(a, parts[0], if |parts| == 2 then parts[1] else a - parts[0] * 0x100_0000);
      if |parts| > 2 {
        Second(a, parts[0], parts[1], if |parts| == 3 then parts[2] else parts[2] * 0x100 + parts[3]);
      }
      if |parts| == 4 {
        Third(a, parts[0] * 256 + parts[1], parts[2], parts[3]);
      }
    }
  }

  lemma Leading(a: nat, first: nat, rest: nat)
    requires a == first * 0x100_0000 + rest && rest < 0x100_0000
    ensures a / 0x100_0000 == first && a % 0x100_0000 == rest
  {
    DivModUnique(a, first, rest, 0x100_0000);
  }

  lemma Second(a: nat, first: nat, second: nat, rest: nat)
    requires a == (first * 256 + second) * 0x1_0000 + rest && second < 256 && rest < 0x1_0000
    ensures a / 0x1_0000 % 256 == second && a % 0x1_0000 == rest
  {
    DivModUnique(a, first * 256 + second, rest, 0x1_0000);
    DivModUnique(first * 256 + second, first, second, 256);
  }

  lemma Third(a: nat, before: nat, third: nat, rest: nat)
    requires a == (before * 256 + third) * 0x100 + rest && third < 256 && rest < 0x100
    ensures a / 0x100 % 256 == third && a % 0x100 == rest
  {
    DivModUnique(a, before * 256 + third, rest, 0x100);
    DivModUnique(before * 256 + third, before, third, 256);
  }

  /** After the parts: the end, or a space; and the address they make. */
  function Finish(s: string, p: Option<Parts>): Option<nat>
    requires p.Some? ==> 1 <= |p.value.values| <= 4
  {
    if p == None || (p.value.next < |s| && s[p.value.next] != 0 as char && !IsSpace(s[p.value.next])) then None
    else Combine(p.value.values)
  }

  /** sys_ip4addr_aton. */
  function Aton(s: string): Option<nat> {
    Finish(s, PartsAt(PartAt, s, 0, []))
  }

  // ---------- What the parser accepts

  /** A way to write one number. */
  datatype Spelling = Decimal(digits: string) | Octal(digits: string) | Hex(x: char, digits: string) {
    predicate Valid() {
      match this
      case Decimal(d) => d != [] && d[0] != '0' && AllAccepted(d, 10)
      case Octal(d) => AllAccepted(d, 8)
      case Hex(x, d) => (x == 'x' || x == 'X') && AllAccepted(d, 16)
    }

    function Text(): string {
      match this
      case Decimal(d) => d
      case Octal(d) => "0" + d
      case Hex(x, d) => ['0', x] + d
    }

    function Value(): nat
      requires Valid()
    {
      match this
      case Decimal(d) => Number(d, 10)
      case Octal(d) => Number(d, 8)
      case Hex(_, d) => Number(d, 16)
    }
  }

  function Texts(parts: seq<Spelling>): string {
    if parts == [] then ""
    else if |parts| == 1 then parts[0].Text()
    else parts[0].Text() + "." + Texts(parts[1..])
  }

  function Values(parts: seq<Spelling>): (r: seq<nat>)
    requires forall i :: 0 <= i < |parts| ==> parts[i].Valid()
    ensures |r| == |parts| && forall i :: 0 <= i < |r| ==> r[i] == parts[i].Value() % WRAP
  {
    seq(|parts|, i requires 0 <= i < |parts| => parts[i].Value() % WRAP)
  }

  predicate NoMoreDigits(rest: string) {
    rest != [] ==> !IsXDigit(rest[0]) && rest[0] != 'x' && rest[0] != 'X'
  }

  lemma SuffixAfter(s: string, i: nat, a: string, b: string)
    requires i <= |s| && s[i..] == a + b
    ensures i + |a| <= |s| && s[i + |a|..] == b && s[i..i + |a|] == a
    ensures b != [] ==> i + |a| < |s| && s[i + |a|] == b[0]
  {
    var rest := s[i..];
    assert rest[..|a|] == a && rest[|a|..] == b;
    assert s[i + |a|..] == rest[|a|..] && s[i..i + |a|] == rest[..|a|];
  }

  lemma DecimalRead(s: string, i: nat, d: string, end: nat)
    requires i < end <= |s| && s[i..end] == d && d[0] != '0' && AllAccepted(d, 10)
    requires end < |s| ==> !IsXDigit(s[end])
    ensures PartAt(s, i) == Some(Part(Number(d, 10) % WRAP, end))
  {
    assert s[i] == d[0] && Accepts(d[0], 10);
    RunEndUnique(s, i, 10, end);
  }

  lemma OctalRead(s: string, i: nat, d: string, end: nat)
    requires i < end <= |s| && s[i] == '0' && s[i + 1..end] == d && AllAccepted(d, 8)
    requires end < |s| ==> !IsXDigit(s[end]) && s[end] != 'x' && s[end] != 'X'
    ensures PartAt(s, i) == Some(Part(Number(d, 8) % WRAP, end))
  {
    if d != [] {
      assert s[i + 1] == d[0] && Accepts(d[0], 8);
    }
    RunEndUnique(s, i + 1, 8, end);
  }

  lemma HexRead(s: string, i: nat, d: string, end: nat)
    requires i + 1 < end <= |s| && s[i] == '0' && (s[i + 1] == 'x' || s[i + 1] == 'X')
    requires s[i + 2..end] == d && AllAccepted(d, 16) && (end < |s| ==> !IsXDigit(s[end]))
    ensures PartAt(s, i) == Some(Part(Number(d, 16) % WRAP, end))
  {
    RunEndUnique(s, i + 2, 16, end);
  }

  /** A number is read in full, wherever it stands. */
  lemma PartRead(s: string, i: nat, p: Spelling, rest: string)
    requires i <= |s| && s[i..] == p.Text() + rest && p.Valid() && NoMoreDigits(rest)
    ensures PartAt(s, i) == Some(Part(p.Value() % WRAP, i + |p.Text()|))
  {
    var end := i + |p.Text()|;
    SuffixAfter(s, i, p.Text(), rest);
    assert s[i] == s[i..end][0];
    match p
    case Decimal(d) =>
      DecimalRead(s, i, d, end);
    case Octal(d) =>
      assert s[i + 1..end] == s[i..end][1..] == d;
      OctalRead(s, i, d, end);
    case Hex(x, d) =>
      assert s[i + 1] == s[i..end][1] == x && s[i + 2..end] == s[i..end][2..] == d;
      HexRead(s, i, d, end);
  }

  predicate Terminated(tail: string) {
    tail != [] ==> tail[0] == 0 as char || IsSpace(tail[0])
  }

  lemma TerminatedEnds(tail: string)
    requires Terminated(tail)
    ensures NoMoreDigits(tail) && (tail != [] ==> tail[0] != '.')
  {
  }

  /** Parts that follow each other with dots between them. */
  ghost predicate Chain(read: Reader, s: string, i: nat, values: seq<nat>, ends: seq<nat>)
    decreases |values|
  {
    && |values| == |ends| > 0 && read(s, i) == Some(Part(values[0], ends[0]))
    && if |values| == 1 then ends[0] < |s| ==> s[ends[0]] != '.'
       else ends[0] < |s| && s[ends[0]] == '.' && Chain(read, s, ends[0] + 1, values[1..], ends[1..])
  }

  lemma {:induction false} ChainRead(read: Reader, s: string, i: nat, values: seq<nat>, ends: seq<nat>,
                                     before: seq<nat>)
    requires Chain(read, s, i, values, ends) && |before| <= 3
    ensures PartsAt(read, s, i, before) ==
            if |before| + |values| > 4 then None else Some(Parts(before + values, ends[|ends| - 1]))
    decreases |values|
  {
    assert before + [values[0]] + values[1..] == before + values;
    if |values| == 1 {
      assert values == [values[0]];
    } else if |before| < 3 {
      ChainRead(read, s, ends[0] + 1, values[1..], ends[1..], before + [values[0]]);
    }
  }

  /** Valid spellings, read from position i up to the tail. */
  ghost predicate Spells(s: string, i: nat, parts: seq<Spelling>, tail: string) {
    i <= |s| && s[i..] == Texts(parts) + tail && AllValid(parts) && Terminated(tail)
  }

  ghost predicate AllValid(parts: seq<Spelling>) {
    parts != [] && forall k :: 0 <= k < |parts| ==> parts[k].Valid()
  }

  /** The numbers are read one after the other, up to the end of the last. */
  ghost predicate ReadAs(s: string, i: nat, parts: seq<Spelling>, ends: seq<nat>) {
    && AllValid(parts) && Chain(PartAt, s, i, Values(parts), ends)
    && ends[|ends| - 1] == i + |Texts(parts)|
  }

  lemma {:induction false} SpelledChain(s: string, i: nat, parts: seq<Spelling>, tail: string) returns (ends: seq<nat>)
    requires Spells(s, i, parts, tail)
    ensures ReadAs(s, i, parts, ends)
    decreases |parts|
  {
    if |parts| == 1 {
      ends := SpelledLast(s, i, parts, tail);
    } else {
      var end, v, rest := SpelledFirst(s, i, parts, tail);
      var others := SpelledChain(s, end + 1, rest, tail);
      ends := SpelledMore(s, i, v, end, parts, rest, others);
    }
  }

  lemma SpelledLast(s: string, i: nat, parts: seq<Spelling>, tail: string) returns (ends: seq<nat>)
    requires Spells(s, i, parts, tail) && |parts| == 1
    ensures ReadAs(s, i, parts, ends)
  {
    LastPartRead(s, i, parts[0], tail);
    ends := [i + |parts[0].Text()|];
  }

  /** The first number, and how the rest goes on behind the dot at next. */
  ghost predicate Begins(i: nat, v: nat, next: nat, parts: seq<Spelling>, rest: seq<Spelling>) {
    && AllValid(parts) && AllValid(rest) && Values(parts) == [v] + Values(rest)
    && i + |Texts(parts)| == next + 1 + |Texts(rest)|
  }

  lemma SpelledFirst(s: string, i: nat, parts: seq<Spelling>, tail: string)
    returns (end: nat, v: nat, rest: seq<Spelling>)
    requires Spells(s, i, parts, tail) && |parts| > 1
    ensures PartAt(s, i) == Some(Part(v, end)) && end < |s| && s[end] == '.'
    ensures |rest| == |parts| - 1 && Spells(s, end + 1, rest, tail) && Begins(i, v, end, parts, rest)
  {
    rest := parts[1..];
    RestValid(parts);
    TextsOn(parts);
    end, v := FirstPartRead(s, i, parts[0], Texts(rest), tail);
  }

  lemma TextsOn(p: seq<Spelling>)
    requires |p| > 1
    ensures Texts(p) == p[0].Text() + "." + Texts(p[1..])
  {
  }

  lemma RestValid(parts: seq<Spelling>)
    requires AllValid(parts) && |parts| > 1
    ensures AllValid(parts[1..]) && Values(parts) == [parts[0].Value() % WRAP] + Values(parts[1..])
  {
  }

  lemma ChainOn(read: Reader, s: string, i: nat, value: nat, end: nat, values: seq<nat>, ends: seq<nat>)
    requires read(s, i) == Some(Part(value, end)) && end < |s| && s[end] == '.'
    requires Chain(read, s, end + 1, values, ends)
    ensures Chain(read, s, i, [value] + values, [end] + ends)
  {
    assert ([value] + values)[1..] == values && ([end] + ends)[1..] == ends;
  }

  lemma SpelledMore(s: string, i: nat, v: nat, next: nat, parts: seq<Spelling>, rest: seq<Spelling>, others: seq<nat>)
    returns (ends: seq<nat>)
    requires PartAt(s, i) == Some(Part(v, next)) && next < |s| && s[next] == '.'
    requires Begins(i, v, next, parts, rest) && ReadAs(s, next + 1, rest, others)
    ensures ReadAs(s, i, parts, ends)
  {
    ChainOn(PartAt, s, i, v, next, Values(rest), others);
    ends := [next] + others;
  }

  lemma LastPartRead(s: string, i: nat, p: Spelling, tail: string)
    requires i <= |s| && s[i..] == p.Text() + tail && p.Valid() && Terminated(tail)
    ensures var end := i + |p.Text()|;
            PartAt(s, i) == Some(Part(p.Value() % WRAP, end)) && (end < |s| ==> s[end] != '.')
  {
    TerminatedEnds(tail);
    PartRead(s, i, p, tail);
    SuffixAfter(s, i, p.Text(), tail);
  }

  lemma Regroup(a: string, b: string, c: string, d: string)
    ensures a + b + c + d == a + (b + (c + d))
  {
  }

  lemma DotAfter(s: string, i: nat, text: string, rest: string)
    requires i <= |s| && s[i..] == text + ("." + rest)
    ensures var end := i + |text|; end < |s| && s[end] == '.' && s[end + 1..] == rest
  {
    SuffixAfter(s, i, text, "." + rest);
    SuffixAfter(s, i + |text|, ".", rest);
  }

  lemma FirstPartRead(s: string, i: nat, p: Spelling, texts: string, tail: string) returns (end: nat, v: nat)
    requires i <= |s| && s[i..] == p.Text() + "." + texts + tail && p.Valid()
    ensures end == i + |p.Text()| && v == p.Value() % WRAP && PartAt(s, i) == Some(Part(v, end))
    ensures end < |s| && s[end] == '.' && s[end + 1..] == texts + tail
  {
    end, v := i + |p.Text()|, p.Value() % WRAP;
    var rest := texts + tail;
    Regroup(p.Text(), ".", texts, tail);
    PartRead(s, i, p, "." + rest);
    DotAfter(s, i, p.Text(), rest);
  }

  lemma FinishExactly(s: string, values: seq<nat>, end: nat)
    requires end <= |s| && 1 <= |values| <= 4
    ensures Finish(s, Some(Parts(values, end))) == if Terminated(s[end..]) then Combine(values) else None
  {
    assert end < |s| ==> s[end..][0] == s[end];
  }

  lemma AtonOfChain(s: string, values: seq<nat>, ends: seq<nat>, end: nat)
    requires Chain(PartAt, s, 0, values, ends) && end == ends[|ends| - 1] && end <= |s|
    ensures Aton(s) == if |values| <= 4 && Terminated(s[end..]) then Combine(values) else None
  {
    ChainRead(PartAt, s, 0, values, ends, []);
    if |values| <= 4 {
      assert [] + values == values;
      FinishExactly(s, values, end);
    }
  }

  /** One to four numbers with dots between them, each in any of the three
      bases, up to the end, a space or a NUL, are accepted just when all but the
      last are bytes and the last fits what is left; five or more are not. */
  lemma AcceptsForms(parts: seq<Spelling>, tail: string)
    requires parts != [] && (forall i :: 0 <= i < |parts| ==> parts[i].Valid()) && Terminated(tail)
    ensures Aton(Texts(parts) + tail) == if |parts| <= 4 then Combine(Values(parts)) else None
  {
    var s, end := Texts(parts) + tail, |Texts(parts)|;
    assert s[0..] == s && s[end..] == tail;
    assert AllValid(parts);
    var ends := SpelledChain(s, 0, parts, tail);
    AtonOfChain(s, Values(parts), ends, end);
  }

  /** What is read as a number has one of the three spellings. */
  lemma PartSpelled(s: string, i: nat) returns (p: Spelling)
    requires i <= |s| && PartAt(s, i).Some?
    ensures p.Valid() && PartAt(s, i).value.value == p.Value() % WRAP
    ensures s[i..PartAt(s, i).value.next] == p.Text()
  {
    var (base, start) := Prefix(s, i);
    var end := PartAt(s, i).value.next;
    if base == 10 {
      assert Accepts(s[i], 10);
      p := Decimal(s[i..end]);
    } else if base == 8 {
      p := Octal(s[i + 1..end]);
    } else {
      p := Hex(s[i + 1], s[i + 2..end]);
    }
  }

  lemma DotBetween(s: string, i: nat, next: nat, end: nat)
    requires i <= next < end <= |s| && s[next] == '.'
    ensures s[i..end] == s[i..next] + "." + s[next + 1..end]
  {
  }

  lemma {:induction false} PartsChain(read: Reader, s: string, i: nat, before: seq<nat>)
    returns (values: seq<nat>, ends: seq<nat>)
    requires |before| <= 3 && PartsAt(read, s, i, before).Some?
    ensures Chain(read, s, i, values, ends) && |before| + |values| <= 4
    ensures PartsAt(read, s, i, before) == Some(Parts(before + values, ends[|ends| - 1]))
    decreases 4 - |before|
  {
    var Part(value, next) := read(s, i).value;
    if next < |s| && s[next] == '.' {
      var values', ends' := PartsChain(read, s, next + 1, before + [value]);
      ChainOn(read, s, i, value, next, values', ends');
      values, ends := [value] + values', [next] + ends';
      assert before + [value] + values' == before + values;
    } else {
      values, ends := [value], [next];
    }
  }

  lemma SpelledOne(p: Spelling, values: seq<nat>)
    requires p.Valid() && values == [p.Value() % WRAP]
    ensures AllValid([p]) && Values([p]) == values && Texts([p]) == p.Text()
  {
  }

  lemma SpelledOn(p: Spelling, rest: seq<Spelling>, v: nat)
    requires p.Valid() && AllValid(rest) && v == p.Value() % WRAP
    ensures AllValid([p] + rest) && Values([p] + rest) == [v] + Values(rest)
    ensures Texts([p] + rest) == p.Text() + "." + Texts(rest)
  {
    var all := [p] + rest;
    assert all[0] == p && all[1..] == rest;
    OneMoreValid(p, rest);
    RestValid(all);
    TextsOn(all);
  }

  /** A spelling, a dot and the spellings behind it. */
  lemma SpelledAhead(s: string, i: nat, p: Spelling, v: nat, next: nat, rest: seq<Spelling>, end: nat)
    requires i <= next < end <= |s| && s[next] == '.' && s[i..next] == p.Text() && s[next + 1..end] == Texts(rest)
    requires p.Valid() && AllValid(rest) && v == p.Value() % WRAP
    ensures AllValid([p] + rest) && Values([p] + rest) == [v] + Values(rest) && s[i..end] == Texts([p] + rest)
  {
    SpelledOn(p, rest, v);
    DotBetween(s, i, next, end);
  }

  lemma OneMoreValid(p: Spelling, rest: seq<Spelling>)
    requires p.Valid() && AllValid(rest)
    ensures AllValid([p] + rest)
  {
  }

  lemma {:induction false} ChainSpelled(s: string, i: nat, values: seq<nat>, ends: seq<nat>)
    returns (parts: seq<Spelling>)
    requires Chain(PartAt, s, i, values, ends)
    ensures AllValid(parts) && Values(parts) == values
    ensures i <= ends[|ends| - 1] <= |s| && s[i..ends[|ends| - 1]] == Texts(parts)
    decreases |values|
  {
    var p := PartSpelled(s, i);
    if |values| == 1 {
      parts := [p];
      SpelledOne(p, values);
    } else {
      var values', ends' := ChainRest(s, i, values, ends);
      var rest := ChainSpelled(s, ends[0] + 1, values', ends');
      parts := [p] + rest;
      SpelledAhead(s, i, p, values[0], ends[0], rest, ends[|ends| - 1]);
    }
  }

  lemma ChainRest(s: string, i: nat, values: seq<nat>, ends: seq<nat>) returns (values': seq<nat>, ends': seq<nat>)
    requires Chain(PartAt, s, i, values, ends) && |values| > 1
    ensures i < ends[0] < |s| && s[ends[0]] == '.' && Chain(PartAt, s, ends[0] + 1, values', ends')
    ensures ends'[|ends'| - 1] == ends[|ends| - 1] && values == [values[0]] + values'
  {
    values', ends' := values[1..], ends[1..];
  }

  /** Nothing else is accepted. */
  lemma AcceptedHasForm(s: string) returns (parts: seq<Spelling>, tail: string)
    requires Aton(s).Some?
    ensures 1 <= |parts| <= 4 && (forall i :: 0 <= i < |parts| ==> parts[i].Valid()) && Terminated(tail)
    ensures s == Texts(parts) + tail && Aton(s) == Combine(Values(parts))
  {
    var values, ends := PartsChain(PartAt, s, 0, []);
    var end := ends[|ends| - 1];
    parts := ChainSpelled(s, 0, values, ends);
    AtonOfChain(s, values, ends, end);
    tail := s[end..];
    Halves(s, end);
  }

  lemma Halves(s: string, end: nat)
    requires end <= |s|
    ensures s == s[0..end] + s[end..]
  {
  }

  // ---------- When the address is the right one

  /** The numbers themselves, whatever their size. */
  function TrueValues(parts: seq<Spelling>): (r: seq<nat>)
    requires forall i :: 0 <= i < |parts| ==> parts[i].Valid()
    ensures |r| == |parts| && forall i :: 0 <= i < |r| ==> r[i] == parts[i].Value()
  {
    seq(|parts|, i requires 0 <= i < |parts| => parts[i].Value())
  }

  function Combined(values: seq<nat>): Option<nat>
    requires values != []
  {
    if |values| <= 4 then Combine(values) else None
  }

  lemma CombinedWraps(values: seq<nat>, wrapped: seq<nat>)
    requires |wrapped| == |values| > 0 && forall i :: 0 <= i < |values| ==> wrapped[i] == values[i] % WRAP
    ensures Combined(wrapped) == Combined(values) <==>
            Combined(wrapped) == None || forall i :: 0 <= i < |values| ==> values[i] < WRAP
  {
    if i :| 0 <= i < |values| && values[i] >= WRAP {
      assert Combined(values) == None;
    } else {
      assert wrapped == values;
    }
  }

  /** The parser computes the address that the numbers make if and only if the
      numbers modulo 2^32 make none or all of them are below 2^32. */
  lemma RightValuesExactly(parts: seq<Spelling>, tail: string)
    requires AllValid(parts) && Terminated(tail)
    ensures Aton(Texts(parts) + tail) == Combined(TrueValues(parts)) <==>
            Combined(Values(parts)) == None || forall i :: 0 <= i < |parts| ==> parts[i].Value() < WRAP
  {
    AcceptsForms(parts, tail);
    CombinedWraps(TrueValues(parts), Values(parts));
  }

  /** A number as in section 6.4.4.1 of ISO/IEC 9899:2011: octal digits are below
      8, and the prefix 0x has digits behind it. */
  predicate IsConstant(p: Spelling) {
    match p
    case Decimal(_) => true
    case Octal(d) => forall i :: 0 <= i < |d| ==> d[i] <= '7'
    case Hex(_, d) => d != []
  }

  /** inet_addr() in POSIX.1-2017: the address that constants make. */
  function InetAddr(parts: seq<Spelling>): Option<nat>
    requires AllValid(parts)
  {
    if forall i :: 0 <= i < |parts| ==> IsConstant(parts[i]) then Combined(TrueValues(parts)) else None
  }

  /** The parser agrees with inet_addr() if and only if the numbers modulo 2^32
      make no address, or all of them are constants below 2^32. */
  lemma AgreesWithInetAddr(parts: seq<Spelling>, tail: string)
    requires AllValid(parts) && Terminated(tail)
    ensures Aton(Texts(parts) + tail) == InetAddr(parts) <==>
            || Combined(Values(parts)) == None
            || forall i :: 0 <= i < |parts| ==> IsConstant(parts[i]) && parts[i].Value() < WRAP
  {
    RightValuesExactly(parts, tail);
    AcceptsForms(parts, tail);
    CombinedWraps(TrueValues(parts), Values(parts));
  }

  // ---------- The printer

  type Byte = x: int | 0 <= x < 256

  function DigitChar(d: nat): char
    requires d < 10
  {
    '0' + d as char
  }

  /** The decimal numeral of a byte. */
  function Decimals(b: nat): (s: string)
    requires b < 1000
    ensures 1 <= |s| <= 3 && AllAccepted(s, 10) && AllAccepted(s, 8)
    ensures b < 10 ==> |s| == 1
    ensures b < 100 ==> |s| <= 2
  {
    if b < 10 then [DigitChar(b)] else Decimals(b / 10) + [DigitChar(b % 10)]
  }

  lemma {:induction false} DecimalsRead(b: nat)
    requires b < 1000
    ensures Number(Decimals(b), 10) == b
    ensures b > 0 ==> Decimals(b)[0] != '0'
    decreases b
  {
    if b >= 10 {
      DecimalsRead(b / 10);
      var s := Decimals(b);
      assert s[..|s| - 1] == Decimals(b / 10);
    } else {
      var s := Decimals(b);
      assert s[..|s| - 1] == [];
      assert Number([], 10) == 0;
    }
  }

  /** The text of an address. */
  function Dotted(a: seq<Byte>): (s: string)
    requires |a| == 4
    ensures |s| <= 15
  {
    Decimals(a[0]) + "." + Decimals(a[1]) + "." + Decimals(a[2]) + "." + Decimals(a[3])
  }

  /** A byte as the parser reads it: a lone zero counts as octal. */
  function Spell(b: Byte): (p: Spelling)
  {
    if b == 0 then Octal("") else Decimal(Decimals(b))
  }

  lemma SpellReads(b: Byte)
    ensures Spell(b).Valid() && Spell(b).Text() == Decimals(b) && Spell(b).Value() == b
  {
    DecimalsRead(b);
  }

  /** The address as a number. */
  function AsNumber(a: seq<Byte>): nat
    requires |a| == 4
  {
    (a[0] as nat) * 0x1_00_00_00 + (a[1] as nat) * 0x1_00_00 + (a[2] as nat) * 0x1_00 + a[3] as nat
  }

  lemma TextsOfFour(p: seq<Spelling>)
    requires |p| == 4
    ensures Texts(p) == p[0].Text() + "." + p[1].Text() + "." + p[2].Text() + "." + p[3].Text()
  {
    TextsOn(p);
    TextsOn(p[1..]);
    TextsOn(p[1..][1..]);
    var last := p[1..][1..][1..];
    assert last == [p[3]] && Texts(last) == p[3].Text();
    FourJoined(p[0].Text() + ".", p[1].Text() + ".", p[2].Text() + ".", p[3].Text());
    assert p[1..][1..][0] == p[2] && p[1..][0] == p[1];
    FourFlat(p[0].Text(), p[1].Text(), p[2].Text(), p[3].Text());
  }

  lemma FourJoined(a: string, b: string, c: string, d: string)
    ensures a + (b + (c + d)) == a + b + c + d
  {
  }

  lemma FourFlat(a: string, b: string, c: string, d: string)
    ensures (a + ".") + (b + ".") + (c + ".") + d == a + "." + b + "." + c + "." + d
  {
  }

  function Spelled(a: seq<Byte>): (p: seq<Spelling>)
    requires |a| == 4
    ensures |p| == 4 && forall i :: 0 <= i < 4 ==> p[i] == Spell(a[i])
  {
    [Spell(a[0]), Spell(a[1]), Spell(a[2]), Spell(a[3])]
  }

  lemma SpelledReads(a: seq<Byte>)
    requires |a| == 4
    ensures forall i :: 0 <= i < 4 ==>
              var p := Spelled(a)[i]; p.Valid() && p.Text() == Decimals(a[i]) && p.Value() == a[i]
  {
    forall i | 0 <= i < 4
      ensures var p := Spelled(a)[i]; p.Valid() && p.Text() == Decimals(a[i]) && p.Value() == a[i]
    {
      SpellReads(a[i]);
    }
  }

  lemma SpelledText(a: seq<Byte>)
    requires |a| == 4
    ensures Texts(Spelled(a)) == Dotted(a)
  {
    SpelledReads(a);
    TextsOfFour(Spelled(a));
  }

  lemma SpelledValues(a: seq<Byte>)
    requires |a| == 4
    ensures AllValid(Spelled(a)) && forall i :: 0 <= i < 4 ==> Values(Spelled(a))[i] == a[i]
  {
    SpelledReads(a);
    forall i | 0 <= i < 4
      ensures Values(Spelled(a))[i] == a[i]
    {
      SmallUnchanged(a[i]);
    }
  }

  lemma SmallUnchanged(b: Byte)
    ensures b % WRAP == b
  {
  }

  /** Every address is read back from its text. */
  lemma RoundTrip(a: seq<Byte>)
    requires |a| == 4
    ensures Aton(Dotted(a)) == Some(AsNumber(a))
  {
    SpelledText(a);
    SpelledValues(a);
    CombineBytes(Values(Spelled(a)), a);
    AcceptsForms(Spelled(a), "");
    assert Dotted(a) + "" == Dotted(a);
  }

  lemma CombineBytes(v: seq<nat>, a: seq<Byte>)
    requires |v| == |a| == 4 && forall i :: 0 <= i < 4 ==> v[i] == a[i]
    ensures Combine(v) == Some(AsNumber(a))
  {
  }

  // ---------- The loops of ip4_addr.cpp

  lemma AddMultiple(k: nat, x: nat)
    ensures (k * WRAP + x) % WRAP == x % WRAP
  {
    DivModUnique(k * WRAP + x, k + x / WRAP, x % WRAP, WRAP);
  }

  /** One more digit, in 32 bits. */
  lemma DigitStep(n: nat, base: nat, d: nat)
    requires d < 16
    ensures (n % WRAP * base + d) % WRAP == (n * base + d) % WRAP
    ensures base == 16 ==> n % WRAP * 16 % WRAP + d == (n * 16 + d) % WRAP
  {
    var q, r := n / WRAP, n % WRAP;
    assert n * base + d == (q * base) * WRAP + (r * base + d) by {
      assert n == q * WRAP + r;
      assert q * WRAP * base == (q * base) * WRAP;
    }
    AddMultiple(q * base, r * base + d);
    if base == 16 {
      NibbleFits(r, d);
    }
  }

  lemma NibbleFits(r: nat, d: nat)
    requires d < 16
    ensures r * 16 % WRAP + d == (r * 16 + d) % WRAP
  {
    var k, m := r / 0x1000_0000, r % 0x1000_0000;
    assert r * 16 == k * WRAP + m * 16;
    AddMultiple(k, m * 16);
    AddMultiple(k, m * 16 + d);
  }

  lemma RunGrows(s: string, start: nat, i: nat, base: nat)
    requires start <= i < |s| && AllAccepted(s[start..i], base) && Accepts(s[i], base)
    ensures AllAccepted(s[start..i + 1], base)
    ensures Number(s[start..i + 1], base) == Number(s[start..i], base) * base + DigitValue(s[i])
  {
    assert s[start..i + 1] == s[start..i] + [s[i]];
  }

  lemma NumberGrows(s: string, start: nat, i: nat, base: nat, val: nat)
    requires start <= i < |s| && AllAccepted(s[start..i], base) && Accepts(s[i], base)
    requires val == Number(s[start..i], base) % WRAP
    ensures AllAccepted(s[start..i + 1], base)
    ensures var n, d := Number(s[start..i + 1], base), DigitValue(s[i]);
            n % WRAP == if IsDigit(s[i]) then (val * base + d) % WRAP else val * 16 % WRAP + d
  {
    RunGrows(s, start, i, base);
    DigitStep(Number(s[start..i], base), base, DigitValue(s[i]));
  }

  method ReadPrefix(cp: string, at: nat) returns (base: nat, i: nat)
    requires at < |cp|
    ensures (base, i) == Prefix(cp, at) && i <= |cp|
  {
    i, base := at, 10;
    if cp[i] == '0' {
      i := i + 1;
      if i < |cp| && (cp[i] == 'x' || cp[i] == 'X') {
        base := 16;
        i := i + 1;
      } else {
        base := 8;
      }
    }
  }

  /** The digits of a number, added up in 32 bits. */
  method ReadDigits(cp: string, start: nat, base: nat) returns (val: nat, i: nat)
    requires start <= |cp|
    ensures i == RunEnd(cp, start, base) && val == Number(cp[start..i], base) % WRAP
  {
    val, i := 0, start;
    while i < |cp| && Accepts(cp[i], base)
      invariant start <= i <= |cp| && AllAccepted(cp[start..i], base)
      invariant val == Number(cp[start..i], base) % WRAP
    {
      NumberGrows(cp, start, i, base, val);
      if IsDigit(cp[i]) {
        val := (val * base + DigitValue(cp[i])) % WRAP;
      } else {
        val := val * 16 % WRAP + DigitValue(cp[i]);
      }
      i := i + 1;
    }
    RunEndUnique(cp, start, base, i);
  }

  /** One turn of the outer loop of sys_ip4addr_aton: a number. */
  method ReadNumber(cp: string, at: nat) returns (p: Option<Part>)
    ensures p == PartAt(cp, at)
  {
    if at >= |cp| || !IsDigit(cp[at]) {
      return None;
    }
    var base, start := ReadPrefix(cp, at);
    var val, i := ReadDigits(cp, start, base);
    p := Some(Part(val, i));
  }

  /** sys_ip4addr_aton. */
  method ParseAddress(cp: string) returns (addr: Option<nat>)
    ensures addr == Aton(cp)
  {
    var parts: seq<nat>, i: nat := [], 0;
    var val: nat;
    while true
      invariant |parts| <= 3 && PartsAt(PartAt, cp, i, parts) == PartsAt(PartAt, cp, 0, [])
      decreases 3 - |parts|
    {
      var p := ReadNumber(cp, i);
      if p == None {
        return None;
      }
      val, i := p.value.value, p.value.next;
      if i < |cp| && cp[i] == '.' {
        if |parts| >= 3 {
          return None;
        }
        parts := parts + [val];
        i := i + 1;
      } else {
        assert PartsAt(PartAt, cp, 0, []) == Some(Parts(parts + [val], i));
        break;
      }
    }
    if i < |cp| && cp[i] != 0 as char && !IsSpace(cp[i]) {
      return None;
    }
    addr := MakeAddress(parts, val);
  }

  /** The switch on the number of parts. */
  method MakeAddress(parts: seq<nat>, last: nat) returns (addr: Option<nat>)
    requires |parts| <= 3 && last < WRAP
    ensures addr == Combine(parts + [last])
  {
    var val := last;
    match |parts| {
      case 0 =>
      case 1 =>
        if val > 0xffffff || parts[0] > 0xff { return None; }
        val := val + parts[0] * 0x1_00_00_00;
      case 2 =>
        if val > 0xffff || parts[0] > 0xff || parts[1] > 0xff { return None; }
        val := val + parts[0] * 0x1_00_00_00 + parts[1] * 0x1_00_00;
      case _ =>
        if val > 0xff || parts[0] > 0xff || parts[1] > 0xff || parts[2] > 0xff { return None; }
        val := val + parts[0] * 0x1_00_00_00 + parts[1] * 0x1_00_00 + parts[2] * 0x1_00;
    }
    addr := Some(val);
  }

  lemma ThreeZeros(s: string) returns (t: string)
    requires AllAccepted(s, 16)
    ensures t == s + "000" && AllAccepted(t, 16) && Number(t, 16) == Number(s, 16) * 0x1000
  {
    NumberOn(s, 16, '0');
    NumberOn(s + ['0'], 16, '0');
    NumberOn(s + ['0'] + ['0'], 16, '0');
    t := s + ['0'] + ['0'] + ['0'];
  }

  lemma OneAndOne(d: string)
    requires d == "100000001"
    ensures AllAccepted(d, 16) && Number(d, 16) == 0x1_0000_0001
  {
    NumberOn("", 16, '1');
    var s3 := ThreeZeros("" + ['1']);
    var s6 := ThreeZeros(s3);
    NumberOn(s6, 16, '0');
    NumberOn(s6 + ['0'], 16, '1');
    assert d == s6 + ['0'] + ['1'];
  }

  lemma OfOnePart(p: Spelling, text: string, value: nat)
    requires p.Valid() && p.Text() == text && value == p.Value() % WRAP
    ensures Aton(text) == Some(value)
  {
    SpelledOne(p, [value]);
    AcceptsForms([p], "");
    assert Texts([p]) + "" == text;
  }

  lemma LargeNumber()
    ensures Aton("0x100000001") == Some(1)
  {
    var d := "100000001";
    OneAndOne(d);
    OfOnePart(Hex('x', d), "0x100000001", 1);
  }

  lemma OctalNine()
    ensures Aton("09") == Some(9)
  {
    var d := "9";
    assert d[..0] == "" && Number(d[..0], 8) == 0 && Number(d, 8) == 9;
    OfOnePart(Octal(d), "09", 9);
  }

  /** A number above 2^32 is accepted as what is left of it, and the digit nine
      in an octal number. */
  method WrongAddresses() returns (one: Option<nat>, nine: Option<nat>)
    ensures one == Some(1) && nine == Some(9)
  {
    LargeNumber();
    OctalNine();
    one := ParseAddress("0x100000001");
    nine := ParseAddress("09");
  }

  function Reversed(s: string): (r: string)
    ensures |r| == |s| && forall i :: 0 <= i < |s| ==> r[i] == s[|s| - 1 - i]
  {
    seq(|s|, i requires 0 <= i < |s| => s[|s| - 1 - i])
  }

  /** The digits of a byte, last digit first. */
  method Digits(b: Byte) returns (inv: string)
    ensures Reversed(inv) == Decimals(b)
  {
    var rest: nat := b;
    inv := [];
    while true
      invariant rest < 256 && Decimals(b) == Decimals(rest) + Reversed(inv)
      decreases rest
    {
      ghost var was := inv;
      inv := inv + [DigitChar(rest % 10)];
      assert Reversed(inv) == [DigitChar(rest % 10)] + Reversed(was);
      if rest / 10 == 0 {
        break;
      }
      rest := rest / 10;
    }
  }

  method PutChar(c: char, buf: array<char>, at: nat)
    requires at < buf.Length
    modifies buf
    ensures buf[..at + 1] == old(buf[..at]) + [c]
    ensures forall j :: 0 <= j < buf.Length && j != at ==> buf[j] == old(buf[j])
  {
    buf[at] := c;
  }

  lemma NextDigit(digits: string, inv: string, i: nat)
    requires digits == Reversed(inv) && i < |inv|
    ensures digits[..|inv| - i] == digits[..|inv| - i - 1] + [inv[i]]
  {
  }

  /** One byte and a dot, as far as the buffer reaches. */
  method PutByte(b: Byte, buf: array<char>, buflen: int, len: nat) returns (ok: bool, end: nat)
    requires buflen <= buf.Length && (buflen >= 0 ==> len <= buflen) && len <= buf.Length
    modifies buf
    ensures ok <==> len + |Decimals(b)| + 1 <= buflen
    ensures ok ==> end == len + |Decimals(b)| + 1 && buf[..end] == old(buf[..len]) + Decimals(b) + "."
    ensures forall j :: 0 <= j < buf.Length && j >= buflen ==> buf[j] == old(buf[j])
  {
    var inv := Digits(b);
    var i := |inv|;
    end := len;
    while i > 0
      invariant end <= buf.Length && 0 <= i <= |inv| && end == len + |inv| - i && (end > len ==> end <= buflen)
      invariant buf[..end] == old(buf[..len]) + Decimals(b)[..|inv| - i]
      invariant forall j :: 0 <= j < buf.Length && j >= buflen ==> buf[j] == old(buf[j])
    {
      i := i - 1;
      if end >= buflen {
        return false, end;
      }
      NextDigit(Decimals(b), inv, i);
      PutChar(inv[i], buf, end);
      end := end + 1;
    }
    if end >= buflen {
      return false, end;
    }
    PutChar('.', buf, end);
    end := end + 1;
    ok := true;
  }

  /** The first n bytes, each with its dot. */
  function WithDots(a: seq<Byte>, n: nat): (s: string)
    requires n <= |a|
    ensures n <= |s|
  {
    if n == 0 then "" else WithDots(a, n - 1) + Decimals(a[n - 1]) + "."
  }

  lemma {:induction false} WithDotsGrows(a: seq<Byte>, m: nat, n: nat)
    requires m <= n <= |a|
    ensures |WithDots(a, m)| <= |WithDots(a, n)|
  {
    if m < n {
      WithDotsGrows(a, m, n - 1);
    }
  }

  lemma AllWithDots(a: seq<Byte>)
    requires |a| == 4
    ensures WithDots(a, 4) == Dotted(a) + "."
  {
    assert WithDots(a, 1) == Decimals(a[0]) + ".";
    assert WithDots(a, 2) == WithDots(a, 1) + Decimals(a[1]) + ".";
    assert WithDots(a, 3) == WithDots(a, 2) + Decimals(a[2]) + ".";
  }

  /** sys_ip4addr_ntoa_r: it succeeds just when the text and its NUL fit, so 16
      bytes are always enough, and never writes behind buflen. */
  method FormatAddress(addr: seq<Byte>, buf: array<char>, buflen: int) returns (ok: bool)
    requires |addr| == 4 && buflen <= buf.Length
    modifies buf
    ensures ok <==> |Dotted(addr)| + 1 <= buflen
    ensures buflen >= 16 ==> ok
    ensures ok ==> var n := |Dotted(addr)|; buf[..n] == Dotted(addr) && buf[n] == 0 as char
    ensures forall j :: 0 <= j < buf.Length && j >= buflen ==> buf[j] == old(buf[j])
  {
    AllWithDots(addr);
    var len: nat := 0;
    for n := 0 to 4
      invariant len <= buf.Length && (n > 0 ==> len <= buflen) && buf[..len] == WithDots(addr, n)
      invariant forall j :: 0 <= j < buf.Length && j >= buflen ==> buf[j] == old(buf[j])
    {
      WithDotsGrows(addr, n + 1, 4);
      ok, len := PutByte(addr[n], buf, buflen, len);
      if !ok {
        return false;
      }
    }
    assert buf[..len - 1] == buf[..len][..len - 1] == Dotted(addr);
    buf[len - 1] := 0 as char;
    ok := true;
  }
}
