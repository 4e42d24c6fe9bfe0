/** One range of bytes: what the server reads out of the header, and what
    section 14.1.2 of RFC 9110 says is there. */
module Ranges {
  import opened Wrappers
  import opened Ids
  import opened Stores
  import opened Bridges
  import Clocks

  // === what the server reads ===

  /** A header's value has no other white space. */
  predicate IsBlank(c: char) { c == ' ' || c == '\t' }

  function TrimStart(text: string): string {
    if text != "" && IsBlank(text[0]) then TrimStart(text[1..]) else text
  }

  function TrimEnd(text: string): string {
    if text != "" && IsBlank(text[|text| - 1]) then TrimEnd(text[..|text| - 1]) else text
  }

  function Trim(text: string): string { TrimEnd(TrimStart(text)) }

  function Find(text: string, c: char): Option<nat> {
    if text == "" then None
    else if text[0] == c then Some(0)
    else match Find(text[1..], c)
      case None => None
      case Some(i) => Some(i + 1)
  }

  /** A number as Rust reads one: a plus sign may stand before its digits. */
  function ParseU64(text: string): Option<nat> {
    var digits := if text != "" && text[0] == '+' then text[1..] else text;
    if digits != "" && Clocks.IsDecimal(digits) && Clocks.Value(digits) <= U64_MAX then Some(Clocks.Value(digits))
      else None
  }

  lemma {:induction false} FindFirst(text: string, c: char)
    ensures match Find(text, c)
      case None => c !in text
      case Some(i) => i < |text| && text[i] == c && c !in text[..i]
  {
    if text != "" && text[0] != c {
      FindFirst(text[1..], c);
      if Find(text[1..], c).Some? {
        var i := Find(text[1..], c).value;
        assert text[..i + 1] == [text[0]] + text[1..][..i];
      }
    }
  }

  datatype Asked = FromTo(first: nat, last: nat) | From(first: nat) | Last(count: nat)

  /** What the two parts around a dash ask for. */
  function AskedIn(first: string, last: string): Option<Asked> {
    var a, b := ParseU64(first), ParseU64(last);
    if a.Some? && b.Some? then (if a.value <= b.value then Some(FromTo(a.value, b.value)) else None)
    else if a.Some? && last == "" then Some(From(a.value))
    else if b.Some? && first == "" && b.value > 0 then Some(Last(b.value))
    else None
  }

  /** What follows the unit, if it is one range. */
  function AskedOf(spec: string): Option<Asked> {
    if ',' in spec then None
    else match Find(Trim(spec), '-')
      case None => None
      case Some(i) => (FindFirst(Trim(spec), '-'); AskedIn(Trim(Trim(spec)[..i]), Trim(Trim(spec)[i + 1..])))
  }

  function AskedBy(header: Option<string>): Option<Asked> {
    if header.None? || !("bytes=" <= Trim(header.value)) then None else AskedOf(Trim(header.value)[6..])
  }

  /** Inclusive offsets; `None` for the whole; refused beyond the content. */
  function OneRange(header: Option<string>, size: nat): Result<Option<(nat, nat)>, ()> {
    match AskedBy(header)
    case None => Ok(None)
    case Some(asked) =>
      var range := match asked
        case FromTo(first, last) => (first, Least(last, SaturatingSub(size, 1)))
        case From(first) => (first, SaturatingSub(size, 1))
        case Last(count) => (SaturatingSub(size, count), SaturatingSub(size, 1));
      if size == 0 || range.0 >= size then Err(()) else Ok(Some(range))
  }

  // === what the RFC says ===

  predicate IsNumber(text: string, n: nat) {
    text != "" && Clocks.IsDecimal(text) && Clocks.Value(text) == n
  }

  /** A range as the grammar has it: nothing but digits and one dash. */
  ghost predicate IsRange(spec: string, asked: Asked) {
    match asked
    case FromTo(first, last) =>
      first <= last && exists x, y :: spec == x + "-" + y && IsNumber(x, first) && IsNumber(y, last)
    case From(first) => exists x :: spec == x + "-" && IsNumber(x, first)
    case Last(count) => exists y :: spec == "-" + y && IsNumber(y, count)
  }

  function LowerCase(text: string): string {
    seq(|text|, i requires 0 <= i < |text| => if 'A' <= text[i] <= 'Z' then text[i] - 'A' + 'a' else text[i])
  }

  /** Elements of a list that are empty: commas, and blanks around them. */
  predicate IsFill(text: string) {
    text == "" || (',' in text && forall c <- text :: c == ',' || IsBlank(c))
  }

  /** A list with one range in it. Recipients are to accept empty elements
      beside it (section 5.6.1); the server takes a list with a comma for no
      range at all. */
  ghost predicate ListsOne(spec: string, asked: Asked) {
    exists before, range, after :: Listed(spec, before, range, after) && IsRange(range, asked)
  }

  predicate Listed(spec: string, before: string, range: string, after: string) {
    spec == before + range + after && IsFill(before) && IsFill(after)
  }

  /** The value, without the blanks around it, is one valid range of bytes.
      Names of units are compared without regard to case (section 14.1). */
  ghost predicate Denotes(header: Option<string>, asked: Asked) {
    header.Some? &&
    var text := Trim(header.value);
    |text| >= 6 && LowerCase(text[..6]) == "bytes=" && ListsOne(text[6..], asked)
  }

  /** The bytes it selects of content of some size. */
  predicate Selects(asked: Asked, size: nat, i: nat) {
    i < size &&
    match asked
    case FromTo(first, last) => first <= i <= last
    case From(first) => first <= i
    case Last(count) => size <= i + count
  }

  /** Whether there is something to send for it: a suffix is satisfiable when
      its length is not zero, however short the content is. */
  predicate Satisfiable(asked: Asked, size: nat) {
    match asked
    case FromTo(first, _) => first < size
    case From(first) => first < size
    case Last(count) => count > 0
  }

  /** A satisfiable suffix of empty content, which is used whole. */
  predicate AllOfNothing(asked: Asked, size: nat) {
    size == 0 && asked.Last? && asked.count > 0
  }

  /** Exactly what is selected; all there is, of empty content; refused if and
      only if the range is not satisfiable. */
  ghost predicate Serves(asked: Asked, size: nat, answer: Result<Option<(nat, nat)>, ()>) {
    match answer
    case Ok(None) => AllOfNothing(asked, size)
    case Ok(Some((first, last))) =>
      && Satisfiable(asked, size) && first <= last < size
      && forall i: nat :: first <= i <= last <==> Selects(asked, size, i)
    case Err(_) => !Satisfiable(asked, size)
  }

  /** The range is served if the header is one, and the whole otherwise. */
  ghost predicate AsInRfc(header: Option<string>, size: nat, answer: Result<Option<(nat, nat)>, ()>) {
    if exists asked :: Denotes(header, asked)
    then exists asked :: Denotes(header, asked) && Serves(asked, size, answer)
    else answer == Ok(None)
  }

  // === how far the two agree ===

  predicate AllBlank(text: string) { forall c <- text :: IsBlank(c) }

  predicate Padded(text: string, n: nat, before: string, sign: string, digits: string, after: string) {
    && text == before + (sign + digits) + after && AllBlank(before) && AllBlank(after)
    && (sign == "" || sign == "+") && IsNumber(digits, n)
  }

  /** Blanks around, and a plus sign before, do not count for the server; a
      number too large for 64 bits is none. */
  ghost predicate Loosely(text: string, n: nat) {
    n <= U64_MAX && exists before, sign, digits, after: string :: Padded(text, n, before, sign, digits, after)
  }

  ghost predicate IsLooseRange(spec: string, asked: Asked) {
    match asked
    case FromTo(first, last) =>
      first <= last && exists x, y :: spec == x + "-" + y && Loosely(x, first) && Loosely(y, last)
    case From(first) => exists x, y :: spec == x + "-" + y && Loosely(x, first) && AllBlank(y)
    case Last(count) => count > 0 && exists x, y :: spec == x + "-" + y && AllBlank(x) && Loosely(y, count)
  }

  lemma {:induction false} TrimStartSplits(text: string) returns (before: string)
    ensures text == before + TrimStart(text) && AllBlank(before)
    ensures TrimStart(text) != "" ==> !IsBlank(TrimStart(text)[0])
  {
    if text != "" && IsBlank(text[0]) {
      var rest := TrimStartSplits(text[1..]);
      before := [text[0]] + rest;
      assert text[1..] == rest + TrimStart(text[1..]);
      assert text == [text[0]] + text[1..] == before + TrimStart(text[1..]);
    } else {
      before := "";
    }
  }

  lemma {:induction false} TrimEndSplits(text: string) returns (after: string)
    ensures text == TrimEnd(text) + after && AllBlank(after)
    ensures TrimEnd(text) != "" ==> !IsBlank(TrimEnd(text)[|TrimEnd(text)| - 1])
  {
    if text != "" && IsBlank(text[|text| - 1]) {
      var rest := TrimEndSplits(text[..|text| - 1]);
      after := rest + [text[|text| - 1]];
      assert text[..|text| - 1] == TrimEnd(text[..|text| - 1]) + rest;
      assert text == text[..|text| - 1] + [text[|text| - 1]] == TrimEnd(text[..|text| - 1]) + after;
    } else {
      after := "";
    }
  }

  lemma TrimSplits(text: string) returns (before: string, after: string)
    ensures text == before + Trim(text) + after && AllBlank(before) && AllBlank(after)
  {
    before := TrimStartSplits(text);
    after := TrimEndSplits(TrimStart(text));
  }

  lemma {:induction false} TrimStartOfBlank(before: string, text: string)
    requires AllBlank(before)
    ensures TrimStart(before + text) == TrimStart(text)
  {
    if before == "" {
      assert before + text == text;
    } else {
      assert (before + text)[1..] == before[1..] + text;
      TrimStartOfBlank(before[1..], text);
    }
  }

  lemma {:induction false} TrimEndOfBlank(text: string, after: string)
    requires AllBlank(after)
    ensures TrimEnd(text + after) == TrimEnd(text)
    decreases |after|
  {
    if after == "" {
      assert text + after == text;
    } else {
      var n := |after| - 1;
      assert (text + after)[..|text + after| - 1] == text + after[..n];
      TrimEndOfBlank(text, after[..n]);
    }
  }

  lemma {:induction false} TrimStartThen(text: string, after: string)
    requires AllBlank(after)
    ensures TrimEnd(TrimStart(text + after)) == TrimEnd(TrimStart(text))
    decreases |text|
  {
    if text != "" && IsBlank(text[0]) {
      assert (text + after)[1..] == text[1..] + after;
      TrimStartThen(text[1..], after);
    } else if text == "" {
      assert text + after == after == after + "";
      TrimStartOfBlank(after, "");
    } else {
      TrimEndOfBlank(text, after);
    }
  }

  /** Blanks around a text do not change what is left of it. */
  lemma TrimPadded(before: string, text: string, after: string)
    requires AllBlank(before) && AllBlank(after)
    ensures Trim(before + text + after) == Trim(text)
  {
    assert before + text + after == before + (text + after);
    TrimStartOfBlank(before, text + after);
    TrimStartThen(text, after);
  }

  lemma BlankIsTrimmed(text: string)
    ensures Trim(text) == "" <==> AllBlank(text)
  {
    var before, after := TrimSplits(text);
    if AllBlank(text) {
      TrimPadded(text, "", "");
      assert text + "" + "" == text;
    }
  }

  lemma NumbersHaveNoBlanks(text: string)
    requires text != "" && forall c <- text :: !IsBlank(c)
    ensures Trim(text) == text
  {
  }

  lemma ParsesLoosely(text: string, n: nat)
    ensures ParseU64(Trim(text)) == Some(n) <==> Loosely(text, n)
  {
    if ParseU64(Trim(text)) == Some(n) {
      var before, after := TrimSplits(text);
      var core := Trim(text);
      var plus := core[0] == '+';
      var sign, digits := if plus then "+" else "", if plus then core[1..] else core;
      assert Padded(text, n, before, sign, digits, after);
    }
    if Loosely(text, n) {
      LooselyParses(text, n);
    }
  }

  lemma LooselyParses(text: string, n: nat)
    requires Loosely(text, n)
    ensures ParseU64(Trim(text)) == Some(n)
  {
    var before, sign, digits, after: string :| Padded(text, n, before, sign, digits, after);
    TrimPadded(before, sign + digits, after);
    NumbersHaveNoBlanks(sign + digits);
    assert sign == "+" ==> (sign + digits)[1..] == digits;
    assert sign == "" ==> sign + digits == digits;
  }

  predicate InRanges(c: char) { '0' <= c <= '9' || c == '+' || IsBlank(c) }

  /** A loose number is of these characters, so that its dash is the first. */
  lemma LooseCharacters(text: string, n: nat)
    requires Loosely(text, n)
    ensures forall c <- text :: InRanges(c)
  {
    var before, sign, digits, after: string :| Padded(text, n, before, sign, digits, after);
    forall c <- text ensures InRanges(c) {
      assert c in before || c in sign || c in digits || c in after;
    }
  }

  lemma {:induction false} FindsFirst(x: string, y: string, c: char)
    requires c !in x
    ensures Find(x + [c] + y, c) == Some(|x|)
  {
    var text := x + [c] + y;
    if x != "" {
      assert text[1..] == x[1..] + [c] + y;
      FindsFirst(x[1..], y, c);
    }
  }

  /** Cutting at the first dash and then trimming is trimming and then cutting. */
  lemma CutsAtDash(spec: string, x: string, y: string)
    requires spec == x + "-" + y && '-' !in x
    ensures '-' in Trim(spec) && Find(Trim(spec), '-').Some?
    ensures var text := Trim(spec); var i := Find(text, '-').value;
      i < |text| && Trim(text[..i]) == Trim(x) && Trim(text[i + 1..]) == Trim(y)
  {
    var before, after := TrimSplits(spec);
    var text := Trim(spec);
    DashStays(before, text, after, x, y);
    var i := |x| - |before|;
    assert text[..i] == x[|before|..] && x == before + text[..i] + "";
    assert y == "" + text[i + 1..] + after;
    FindsFirst(text[..i], text[i + 1..], '-');
    assert text == text[..i] + ['-'] + text[i + 1..];
    TrimPadded(before, text[..i], "");
    TrimPadded("", text[i + 1..], after);
  }

  lemma AfterIsBlank(text: string, after: string, k: nat)
    requires k < |text + after| && AllBlank(after)
    ensures k < |text| || IsBlank((text + after)[k])
  {
  }

  lemma DashStays(before: string, text: string, after: string, x: string, y: string)
    requires before + text + after == x + "-" + y && AllBlank(before) && AllBlank(after) && '-' !in x
    ensures |before| <= |x| < |before| + |text|
    ensures x == before + text[..|x| - |before|] && text[|x| - |before|] == '-'
      && y == text[|x| - |before| + 1..] + after
  {
    var spec := before + text + after;
    assert spec[|x|] == '-';
    assert forall k :: 0 <= k < |before| ==> spec[k] == before[k] && IsBlank(before[k]);
    assert forall k :: 0 <= k < |after| ==> spec[|before| + |text| + k] == after[k] && IsBlank(after[k]);
    AfterIsBlank(before + text, after, |x|);
    var i := |x| - |before|;
    assert spec[..|x|] == x && spec[..|x|] == before + text[..i];
    assert spec[|x| + 1..] == y && spec[|x| + 1..] == text[i + 1..] + after;
  }

  predicate IsPart(text: string) { forall c <- text :: InRanges(c) }

  /** Text that is cut into two parts at a dash is read as a loose range. */
  lemma PartsAreRead(x: string, y: string, asked: Asked)
    ensures AskedIn(Trim(x), Trim(y)) == Some(asked) <==>
      match asked
      case FromTo(first, last) => first <= last && Loosely(x, first) && Loosely(y, last)
      case From(first) => Loosely(x, first) && AllBlank(y)
      case Last(count) => count > 0 && AllBlank(x) && Loosely(y, count)
  {
    BlankIsTrimmed(x);
    BlankIsTrimmed(y);
    match asked
    case FromTo(first, last) =>
      ParsesLoosely(x, first);
      ParsesLoosely(y, last);
    case From(first) => ParsesLoosely(x, first);
    case Last(count) => ParsesLoosely(y, count);
  }

  /** A loose range has one dash, and parts without any. */
  lemma LooseRangeSplits(spec: string, asked: Asked) returns (x: string, y: string)
    requires IsLooseRange(spec, asked)
    ensures spec == x + "-" + y && IsPart(x) && IsPart(y) && AskedIn(Trim(x), Trim(y)) == Some(asked)
  {
    match asked {
      case FromTo(first, last) =>
        x, y :| spec == x + "-" + y && Loosely(x, first) && Loosely(y, last);
        LooseCharacters(x, first);
        LooseCharacters(y, last);
      case From(first) =>
        x, y :| spec == x + "-" + y && Loosely(x, first) && AllBlank(y);
        LooseCharacters(x, first);
      case Last(count) =>
        x, y :| spec == x + "-" + y && AllBlank(x) && Loosely(y, count);
        LooseCharacters(y, count);
    }
    PartsAreRead(x, y, asked);
  }

  /** The code reads exactly the loose ranges. */
  lemma ReadsLooseRanges(header: string, asked: Asked)
    ensures AskedBy(Some(header)) == Some(asked) <==> "bytes=" <= Trim(header) && IsLooseRange(Trim(header)[6..], asked)
  {
    if "bytes=" <= Trim(header) {
      var spec := Trim(header)[6..];
      if AskedBy(Some(header)) == Some(asked) {
        ReadIsLoose(spec, asked);
      }
      if IsLooseRange(spec, asked) {
        LooseIsRead(spec, asked);
      }
    }
  }

  lemma LooseIsRead(spec: string, asked: Asked)
    requires IsLooseRange(spec, asked)
    ensures AskedOf(spec) == Some(asked)
  {
    var x, y := LooseRangeSplits(spec, asked);
    assert '-' !in x && ',' !in x && ',' !in y;
    CutsAtDash(spec, x, y);
  }

  /** The parts around the first dash, with the blanks that were trimmed. */
  lemma SplitsAtDash(spec: string, i: nat) returns (x: string, y: string)
    requires i < |Trim(spec)| && Trim(spec)[i] == '-'
    ensures spec == x + "-" + y
    ensures Trim(x) == Trim(Trim(spec)[..i]) && Trim(y) == Trim(Trim(spec)[i + 1..])
  {
    var before, after := TrimSplits(spec);
    var first, last := Trim(spec)[..i], Trim(spec)[i + 1..];
    x, y := before + first + "", "" + last + after;
    TrimPadded(before, first, "");
    TrimPadded("", last, after);
    assert Trim(spec) == first + "-" + last;
  }

  lemma ReadIsLoose(spec: string, asked: Asked)
    requires AskedOf(spec) == Some(asked)
    ensures IsLooseRange(spec, asked)
  {
    FindFirst(Trim(spec), '-');
    var x, y := SplitsAtDash(spec, Find(Trim(spec), '-').value);
    PartsAreRead(x, y, asked);
  }

  // === exactly where they differ ===

  predicate HasOddities(text: string) { '+' in text || ' ' in text || '\t' in text }

  predicate Fits64(asked: Asked) {
    match asked
    case FromTo(first, last) => first <= U64_MAX && last <= U64_MAX
    case From(first) => first <= U64_MAX
    case Last(count) => count <= U64_MAX
  }

  lemma NumberIsPlain(text: string, n: nat)
    requires IsNumber(text, n)
    ensures !HasOddities(text) && (n <= U64_MAX ==> Loosely(text, n))
  {
    assert text == "" + ("" + text) + "";
    assert Padded(text, n, "", "", text, "");
  }

  lemma BlankIsOdd(text: string, part: string)
    requires AllBlank(part) && forall c <- part :: c in text
    ensures part == "" || HasOddities(text)
  {
    if part != "" {
      assert part[0] in part;
    }
  }

  lemma PlainNumber(text: string, n: nat)
    requires Loosely(text, n) && !HasOddities(text)
    ensures IsNumber(text, n)
  {
    var before, sign, digits, after: string :| Padded(text, n, before, sign, digits, after);
    assert sign == "" || '+' in sign;
    PaddedHas(text, n, before, sign, digits, after);
    BlankIsOdd(text, before);
    BlankIsOdd(text, after);
    assert text == digits;
  }

  lemma PaddedHas(text: string, n: nat, before: string, sign: string, digits: string, after: string)
    requires Padded(text, n, before, sign, digits, after)
    ensures forall c :: c in before || c in sign || c in after ==> c in text
  {
    forall c | c in before || c in sign || c in after ensures c in text {
      assert c in before + (sign + digits) + after;
    }
  }

  /** What both grammars have: digits alone, within 64 bits, and something to
      select. */
  lemma RangeIsLoose(spec: string, asked: Asked)
    requires IsRange(spec, asked)
    ensures !HasOddities(spec) && (IsLooseRange(spec, asked) <==> Fits64(asked) && asked != Last(0))
  {
    RangeIsPlain(spec, asked);
    if Fits64(asked) && asked != Last(0) {
      RangeIsTaken(spec, asked);
    }
  }

  lemma RangeIsPlain(spec: string, asked: Asked)
    requires IsRange(spec, asked)
    ensures !HasOddities(spec)
  {
    match asked
    case FromTo(first, last) =>
      var x, y :| spec == x + "-" + y && IsNumber(x, first) && IsNumber(y, last);
      NumberIsPlain(x, first);
      NumberIsPlain(y, last);
    case From(first) =>
      var x :| spec == x + "-" && IsNumber(x, first);
      NumberIsPlain(x, first);
    case Last(count) =>
      var y :| spec == "-" + y && IsNumber(y, count);
      NumberIsPlain(y, count);
  }

  lemma RangeIsTaken(spec: string, asked: Asked)
    requires IsRange(spec, asked) && Fits64(asked) && asked != Last(0)
    ensures IsLooseRange(spec, asked)
  {
    match asked
    case FromTo(first, last) =>
      var x, y :| spec == x + "-" + y && IsNumber(x, first) && IsNumber(y, last);
      NumberIsPlain(x, first);
      NumberIsPlain(y, last);
    case From(first) =>
      var x :| spec == x + "-" && IsNumber(x, first);
      NumberIsPlain(x, first);
      assert spec == x + "-" + "" && AllBlank("");
    case Last(count) =>
      var y :| spec == "-" + y && IsNumber(y, count);
      NumberIsPlain(y, count);
      assert spec == "" + "-" + y;
  }

  lemma LooseIsRange(spec: string, asked: Asked)
    requires IsLooseRange(spec, asked) && !HasOddities(spec)
    ensures IsRange(spec, asked)
  {
    match asked
    case FromTo(first, last) =>
      var x, y :| spec == x + "-" + y && Loosely(x, first) && Loosely(y, last);
      PlainNumber(x, first);
      PlainNumber(y, last);
    case From(first) =>
      var x, y :| spec == x + "-" + y && Loosely(x, first) && AllBlank(y);
      PlainNumber(x, first);
      BlankIsOdd(spec, y);
      assert x + "-" + "" == x + "-";
    case Last(count) =>
      var x, y :| spec == x + "-" + y && AllBlank(x) && Loosely(y, count);
      PlainNumber(y, count);
      BlankIsOdd(spec, x);
      assert "" + "-" + y == "-" + y;
  }

  lemma {:induction false} ValueDetermines(spec: string, asked: Asked, other: Asked)
    requires IsRange(spec, asked) && IsRange(spec, other)
    ensures asked == other
  {
    var x, y := RangeSplits(spec, asked);
    var p, q := RangeSplits(spec, other);
    FindsFirst(x, y, '-');
    FindsFirst(p, q, '-');
    assert x == spec[..|x|] && p == spec[..|p|] && y == spec[|x| + 1..] && q == spec[|p| + 1..];
  }

  lemma RangeSplits(spec: string, asked: Asked) returns (x: string, y: string)
    requires IsRange(spec, asked)
    ensures spec == x + "-" + y == x + ['-'] + y && '-' !in x
    ensures match asked
      case FromTo(first, last) => IsNumber(x, first) && IsNumber(y, last)
      case From(first) => IsNumber(x, first) && y == ""
      case Last(count) => x == "" && IsNumber(y, count)
  {
    match asked
    case FromTo(first, last) =>
      x, y :| spec == x + "-" + y && IsNumber(x, first) && IsNumber(y, last);
    case From(first) =>
      x :| spec == x + "-" && IsNumber(x, first);
      y := "";
    case Last(count) =>
      y :| spec == "-" + y && IsNumber(y, count);
      x := "";
  }

  // === lists ===

  lemma RangeHasNoFill(range: string, asked: Asked)
    requires IsRange(range, asked)
    ensures range != "" && forall c <- range :: c != ',' && !IsBlank(c)
  {
    var x, y := RangeSplits(range, asked);
    forall c <- range ensures c != ',' && !IsBlank(c) {
      assert c in x || c == '-' || c in y;
    }
  }

  /** What is left and right of the range is determined by the text. */
  lemma ListedFrom(spec: string, before: string, range: string, after: string,
                   before2: string, range2: string, after2: string)
    requires Listed(spec, before, range, after) && Listed(spec, before2, range2, after2)
    requires range != "" && forall c <- range :: c != ',' && !IsBlank(c)
    requires range2 != ""
    ensures |before2| <= |before| && |after2| <= |after|
  {
    var end := |before| + |range| - 1;
    assert spec[|before|] == range[0] && range[0] in range;
    assert spec[end] == range[|range| - 1] && range[|range| - 1] in range;
    FillIsFill(spec, before2, range2 + after2, |before|);
    assert spec == before2 + range2 + after2 == before2 + (range2 + after2);
    EndIsFill(spec, before2 + range2, after2, end);
  }

  lemma FillIsFill(spec: string, fill: string, rest: string, k: nat)
    requires spec == fill + rest && IsFill(fill) && k < |spec|
    ensures k < |fill| ==> spec[k] == ',' || IsBlank(spec[k])
  {
    assert k < |fill| ==> spec[k] == fill[k] && fill[k] in fill;
  }

  lemma EndIsFill(spec: string, rest: string, fill: string, k: nat)
    requires spec == rest + fill && IsFill(fill) && k < |spec|
    ensures k >= |rest| ==> spec[k] == ',' || IsBlank(spec[k])
  {
    assert k >= |rest| ==> spec[k] == fill[k - |rest|] && fill[k - |rest|] in fill;
  }

  lemma ListDetermines(spec: string, asked: Asked, other: Asked)
    requires ListsOne(spec, asked) && ListsOne(spec, other)
    ensures asked == other
  {
    var b, r, a :| Listed(spec, b, r, a) && IsRange(r, asked);
    var b2, r2, a2 :| Listed(spec, b2, r2, a2) && IsRange(r2, other);
    RangeHasNoFill(r, asked);
    RangeHasNoFill(r2, other);
    ListedFrom(spec, b, r, a, b2, r2, a2);
    ListedFrom(spec, b2, r2, a2, b, r, a);
    assert r == spec[|b|..|spec| - |a|] && r2 == spec[|b2|..|spec| - |a2|];
    ValueDetermines(r, asked, other);
  }

  /** Without a comma the list is the range. */
  lemma NoCommaNoList(spec: string, asked: Asked)
    requires ',' !in spec
    ensures ListsOne(spec, asked) <==> IsRange(spec, asked)
  {
    if ListsOne(spec, asked) {
      var before, range, after :| Listed(spec, before, range, after) && IsRange(range, asked);
      assert ',' in before || ',' in after ==> ',' in before + range + after;
      assert before == "" && after == "";
      assert spec == range;
    }
    if IsRange(spec, asked) {
      assert spec == "" + spec + "" && Listed(spec, "", spec, "");
    }
  }

  // === the deviations ===

  /** The header is one range, but the server takes it for none: the unit is
      not in lower case, it is in a list, nothing is selected by a count of 0,
      or a number does not fit 64 bits. */
  ghost predicate Missed(header: Option<string>, asked: Asked) {
    Denotes(header, asked) &&
    var text := Trim(header.value);
    !("bytes=" <= text) || ',' in text[6..] || asked == Last(0) || !Fits64(asked)
  }

  /** It is none, but the server takes it for one: there are plus signs or
      blanks in it. */
  ghost predicate Overread(header: Option<string>, asked: Asked) {
    header.Some? &&
    var text := Trim(header.value);
    "bytes=" <= text && HasOddities(text[6..]) && IsLooseRange(text[6..], asked)
  }

  /** It is one and is missed; or it is read, and refused of empty content
      though it is a suffix. A suffix that is missed is sent all the nothing
      there is, which is right. */
  ghost predicate Misserved(header: Option<string>, asked: Asked, size: nat) {
    Denotes(header, asked) && (Missed(header, asked) <==> !AllOfNothing(asked, size))
  }

  ghost predicate Differs(header: Option<string>, size: nat) {
    exists asked :: Misserved(header, asked, size) || Overread(header, asked)
  }

  lemma LowerIsItself(text: string)
    requires "bytes=" <= text
    ensures LowerCase(text[..6]) == "bytes="
  {
    assert text[..6] == "bytes=";
  }

  lemma ReadHasNoComma(header: Option<string>, asked: Asked)
    requires AskedBy(header) == Some(asked)
    ensures header.Some? && "bytes=" <= Trim(header.value) && ',' !in Trim(header.value)[6..]
  {
  }

  lemma ReadIsDenoted(header: Option<string>, asked: Asked)
    requires AskedBy(header) == Some(asked)
    ensures Denotes(header, asked) || Overread(header, asked)
    ensures Overread(header, asked) ==> forall other :: !Denotes(header, other)
  {
    ReadsLooseRanges(header.value, asked);
    ReadHasNoComma(header, asked);
    var spec := Trim(header.value)[6..];
    LowerIsItself(Trim(header.value));
    if HasOddities(spec) {
      forall other | Denotes(header, other) ensures false {
        NoCommaNoList(spec, other);
        RangeIsPlain(spec, other);
      }
    } else {
      LooseIsRange(spec, asked);
      NoCommaNoList(spec, asked);
    }
  }

  lemma DenotedIsRead(header: Option<string>, asked: Asked)
    requires Denotes(header, asked)
    ensures AskedBy(header) == Some(asked) <==> !Missed(header, asked)
  {
    var spec := Trim(header.value)[6..];
    if ',' !in spec {
      NoCommaNoList(spec, asked);
      RangeIsLoose(spec, asked);
      ReadsLooseRanges(header.value, asked);
    }
  }

  lemma DenotesOne(header: Option<string>, asked: Asked, other: Asked)
    requires Denotes(header, asked) && Denotes(header, other)
    ensures asked == other
  {
    ListDetermines(Trim(header.value)[6..], asked, other);
  }

  lemma ReadIsTheDenoted(header: Option<string>, asked: Asked)
    requires Denotes(header, asked) && AskedBy(header).Some?
    ensures AskedBy(header) == Some(asked)
  {
    ReadIsDenoted(header, AskedBy(header).value);
    DenotesOne(header, asked, AskedBy(header).value);
  }

  /** What is read is served, but for a suffix of empty content. */
  lemma ServesWhatIsRead(header: Option<string>, size: nat)
    ensures match AskedBy(header)
      case None => OneRange(header, size) == Ok(None)
      case Some(asked) =>
        && asked != Last(0) && OneRange(header, size) != Ok(None)
        && (Serves(asked, size, OneRange(header, size)) <==> !AllOfNothing(asked, size))
  {
  }

  /** The answer is the one of the RFC exactly when the header is none of those,
      for content of this size. */
  lemma AsInRfcExactly(header: Option<string>, size: nat)
    ensures AsInRfc(header, size, OneRange(header, size)) <==> !Differs(header, size)
  {
    if asked :| Denotes(header, asked) {
      DenotedAnswer(header, asked, size);
    } else {
      UndenotedAnswer(header, size);
    }
  }

  lemma OverreadIsNoRange(header: Option<string>, asked: Asked, other: Asked)
    requires Denotes(header, asked)
    ensures !Overread(header, other)
  {
    if header.Some? {
      ReadsLooseRanges(header.value, other);
    }
    if AskedBy(header) == Some(other) {
      ReadIsDenoted(header, other);
    }
  }

  lemma DenotedAnswer(header: Option<string>, asked: Asked, size: nat)
    requires Denotes(header, asked)
    ensures AsInRfc(header, size, OneRange(header, size)) <==> !Differs(header, size)
  {
    ServesWhatIsRead(header, size);
    DenotedIsRead(header, asked);
    forall other | Denotes(header, other) ensures other == asked {
      DenotesOne(header, asked, other);
    }
    forall other ensures !Overread(header, other) {
      OverreadIsNoRange(header, asked, other);
    }
    if AskedBy(header).Some? {
      ReadIsTheDenoted(header, asked);
    }
    assert Differs(header, size) <==> Misserved(header, asked, size);
    assert AsInRfc(header, size, OneRange(header, size)) <==> Serves(asked, size, OneRange(header, size));
  }

  lemma UndenotedAnswer(header: Option<string>, size: nat)
    requires forall asked :: !Denotes(header, asked)
    ensures AsInRfc(header, size, OneRange(header, size)) <==> !Differs(header, size)
  {
    ServesWhatIsRead(header, size);
    if AskedBy(header).Some? {
      ReadIsDenoted(header, AskedBy(header).value);
    } else {
      forall other ensures !Overread(header, other) {
        if header.Some? {
          ReadsLooseRanges(header.value, other);
        }
      }
    }
  }

  // === one header of each kind ===

  lemma NoBlanksNoTrim(text: string)
    requires text != "" && !IsBlank(text[0]) && !IsBlank(text[|text| - 1])
    ensures Trim(text) == text
  {
  }

  lemma NeverRead(header: Option<string>, asked: Asked, size: nat)
    requires Missed(header, asked)
    ensures OneRange(header, size) == Ok(None)
  {
    DenotedIsRead(header, asked);
    ServesWhatIsRead(header, size);
    if AskedBy(header).Some? {
      ReadIsTheDenoted(header, asked);
    }
  }

  lemma IsListed(spec: string, asked: Asked)
    requires IsRange(spec, asked)
    ensures ListsOne(spec, asked)
  {
    assert spec == "" + spec + "" && Listed(spec, "", spec, "");
  }

  /** A count of 0 selects nothing; the server sends the whole. */
  lemma ZeroSuffix(size: nat)
    ensures Missed(Some("bytes=-0"), Last(0)) && OneRange(Some("bytes=-0"), size) == Ok(None)
    ensures Serves(Last(0), size, Err(()))
  {
    NoBlanksNoTrim("bytes=-0");
    LowerIsItself("bytes=-0");
    assert "bytes=-0"[6..] == "-0" == "-" + "0" && IsNumber("0", 0);
    IsListed("-0", Last(0));
    NeverRead(Some("bytes=-0"), Last(0), size);
  }

  /** The last five bytes of nothing are nothing, and are refused. */
  lemma SuffixOfNothing()
    ensures Denotes(Some("bytes=-5"), Last(5)) && Satisfiable(Last(5), 0)
    ensures OneRange(Some("bytes=-5"), 0) == Err(()) && Differs(Some("bytes=-5"), 0)
    ensures Serves(Last(5), 0, Ok(None)) && !Serves(Last(5), 0, Err(()))
  {
    NoBlanksNoTrim("bytes=-5");
    LowerIsItself("bytes=-5");
    assert "bytes=-5"[6..] == "-5" == "-" + "5" && IsNumber("5", 5);
    IsListed("-5", Last(5));
    DenotedIsRead(Some("bytes=-5"), Last(5));
    assert ',' !in "-5";
    assert Misserved(Some("bytes=-5"), Last(5), 0);
  }

  /** A list with an empty element; the server sends the whole. */
  lemma EmptyElement(size: nat)
    ensures Missed(Some("bytes=5-,"), From(5)) && OneRange(Some("bytes=5-,"), size) == Ok(None)
  {
    NoBlanksNoTrim("bytes=5-,");
    LowerIsItself("bytes=5-,");
    assert "bytes=5-,"[6..] == "5-," == "" + "5-" + "," && "5-" == "5" + "-" && IsNumber("5", 5);
    assert Listed("5-,", "", "5-", ",") && IsRange("5-", From(5));
    assert ',' in "5-,";
    NeverRead(Some("bytes=5-,"), From(5), size);
  }

  /** The unit in other letters: the server sends the whole. */
  lemma OtherLetters(size: nat)
    ensures Missed(Some("Bytes=5-"), From(5)) && OneRange(Some("Bytes=5-"), size) == Ok(None)
  {
    NoBlanksNoTrim("Bytes=5-");
    assert LowerCase("Bytes=5-"[..6]) == "bytes=";
    assert "Bytes=5-"[6..] == "5-" == "5" + "-" && IsNumber("5", 5);
    IsListed("5-", From(5));
    NeverRead(Some("Bytes=5-"), From(5), size);
  }

  /** A first byte beyond 64 bits is beyond any content; the server sends the
      whole. */
  lemma BeyondSixtyFourBits(size: nat)
    requires size <= U64_MAX
    ensures Missed(Some("bytes=18446744073709551616-"), From(U64_MAX + 1))
    ensures OneRange(Some("bytes=18446744073709551616-"), size) == Ok(None)
    ensures Serves(From(U64_MAX + 1), size, Err(()))
  {
    var header := "bytes=18446744073709551616-";
    NoBlanksNoTrim(header);
    LowerIsItself(header);
    assert header[6..] == "18446744073709551616" + "-";
    BigNumber();
    IsListed(header[6..], From(U64_MAX + 1));
    NeverRead(Some(header), From(U64_MAX + 1), size);
  }

  lemma OneMoreDigit(text: string, c: char, n: nat)
    requires (text == "" && n == 0) || IsNumber(text, n)
    requires '0' <= c <= '9'
    ensures IsNumber(text + [c], 10 * n + (c - '0') as nat)
  {
    assert (text + [c])[..|text|] == text;
  }

  lemma FiveMoreDigits(text: string, n: nat, a: char, b: char, c: char, d: char, e: char)
    requires (text == "" && n == 0) || IsNumber(text, n)
    requires '0' <= a <= '9' && '0' <= b <= '9' && '0' <= c <= '9' && '0' <= d <= '9' && '0' <= e <= '9'
    ensures var low := [a, b, c, d, e];
      IsNumber(text + low, 100000 * n + 10000 * (a - '0') as nat + 1000 * (b - '0') as nat
                           + 100 * (c - '0') as nat + 10 * (d - '0') as nat + (e - '0') as nat)
  {
    OneMoreDigit(text, a, n);
    var n1 := 10 * n + (a - '0') as nat;
    OneMoreDigit(text + [a], b, n1);
    var n2 := 10 * n1 + (b - '0') as nat;
    OneMoreDigit(text + [a] + [b], c, n2);
    var n3 := 10 * n2 + (c - '0') as nat;
    OneMoreDigit(text + [a] + [b] + [c], d, n3);
    var n4 := 10 * n3 + (d - '0') as nat;
    OneMoreDigit(text + [a] + [b] + [c] + [d], e, n4);
    assert text + [a] + [b] + [c] + [d] + [e] == text + [a, b, c, d, e];
  }

  lemma BigNumber()
    ensures IsNumber("18446744073709551616", U64_MAX + 1)
  {
    FiveMoreDigits("", 0, '1', '8', '4', '4', '6');
    assert "" + ['1', '8', '4', '4', '6'] == "18446";
    FiveMoreDigits("18446", 18446, '7', '4', '4', '0', '7');
    assert "18446" + ['7', '4', '4', '0', '7'] == "1844674407";
    FiveMoreDigits("1844674407", 1844674407, '3', '7', '0', '9', '5');
    assert "1844674407" + ['3', '7', '0', '9', '5'] == "184467440737095";
    FiveMoreDigits("184467440737095", 184467440737095, '5', '1', '6', '1', '6');
    assert "184467440737095" + ['5', '1', '6', '1', '6'] == "18446744073709551616";
  }

  /** A plus sign makes it none; the server serves it as one. */
  lemma PlusSign(size: nat)
    ensures Overread(Some("bytes=+5-"), From(5)) && Serves(From(5), size, OneRange(Some("bytes=+5-"), size))
  {
    var header := "bytes=+5-";
    NoBlanksNoTrim(header);
    assert header[6..] == "+5-" == "+5" + "-" + "" && '+' in header[6..];
    assert IsNumber("5", 5) && "+5" == "" + ("+" + "5") + "" && Padded("+5", 5, "", "+", "5", "");
    assert Loosely("+5", 5) && AllBlank("");
    ReadsLooseRanges(header, From(5));
    ServesWhatIsRead(Some(header), size);
  }

  /** And so does a blank inside. */
  lemma BlankInside(size: nat)
    ensures Overread(Some("bytes=5 -"), From(5)) && Serves(From(5), size, OneRange(Some("bytes=5 -"), size))
  {
    var header := "bytes=5 -";
    NoBlanksNoTrim(header);
    assert header[6..] == "5 -" == "5 " + "-" + "" && ' ' in header[6..];
    assert IsNumber("5", 5) && "5 " == "" + ("" + "5") + " " && AllBlank(" ") && Padded("5 ", 5, "", "", "5", " ");
    assert Loosely("5 ", 5) && AllBlank("");
    ReadsLooseRanges(header, From(5));
    ServesWhatIsRead(Some(header), size);
  }

  // === the response ===

  /** What is left of an item from an offset on. */
  function Rest(item: seq<byte>, offset: nat): seq<byte> {
    if offset <= |item| then item[offset..] else []
  }

  /** A range response is the asked slice: whatever the two sides do, once the
      sender is done and the channel empty the client has those bytes. */
  lemma RangeResponseIsTheSlice(item: seq<byte>, header: Option<string>, first: nat, last: nat, steps: seq<OutStep>)
    requires OneRange(header, |item|) == Ok(Some((first, last)))
    requires OutRun(StreamOut(Rest(item, first), SaturatingSub(last + 1, first)), steps)
    ensures var s := OutEnd(StreamOut(Rest(item, first), SaturatingSub(last + 1, first)), steps);
      first <= last < |item| && (!s.gone && s.stopped && s.queue == [] ==> s.emitted == item[first..last + 1])
  {
    ServesWhatIsRead(header, |item|);
    StreamsExactly(Rest(item, first), SaturatingSub(last + 1, first), steps);
  }
}
