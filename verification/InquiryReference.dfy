/**
  The inquiry reference code and its parser: which spellings the parser takes for which number, on which text it
  raises an error, and that every printed reference is one of the spellings.
 */
module InquiryReference {
  import opened Options
  import opened Digits
  import opened Characters

  /******* Text *******/

  predicate IsSeparator(c: char) { c == '-' || c == '#' || c == ' ' }

  predicate IsDigitText(s: string) { s != [] && All(s, IsDigitChar) }

  predicate All(s: string, chars: char -> bool) { forall c <- s :: chars(c) }

  /** `lstrip`. */
  function TrimLeft(s: string, chars: char -> bool): string {
    if s != [] && chars(s[0]) then TrimLeft(s[1..], chars) else s
  }

  /** `rstrip`. */
  function TrimRight(s: string, chars: char -> bool): string {
    if s != [] && chars(s[|s| - 1]) then TrimRight(s[..|s| - 1], chars) else s
  }

  function Strip(s: string): string { TrimRight(TrimLeft(s, IsSpace), IsSpace) }

  /**
    `upper`, as far as it can matter: the dotless i is the one other letter that becomes an ASCII one by itself, and
    what the remaining letters become keeps a text from being a number as they do.
   */
  function UpperChar(c: char): char {
    if 'a' <= c <= 'z' then c - 'a' + 'A' else if c == '\U{0131}' then 'I' else c
  }

  function Upper(s: string): (r: string)
    ensures |r| == |s| && forall i :: 0 <= i < |s| ==> r[i] == UpperChar(s[i])
  {
    seq(|s|, i requires 0 <= i < |s| => UpperChar(s[i]))
  }

  function Cut(s: string, token: string): string { if token <= s then s[|token|..] else s }

  /******* Printing and parsing *******/

  const PREFIX := "INQ"

  /** At least six digits. */
  function Padded(n: nat): string {
    if |Print(n)| < 6 then Zeros(6 - |Print(n)|) + Print(n) else Print(n)
  }

  /** `Inquiry.reference`. */
  function Reference(pk: Option<nat>): string {
    match pk
    case None => ""
    case Some(n) => PREFIX + "-" + Padded(n)
  }

  function Trimmed(text: string): string { Strip(TrimLeft(Strip(text), IsSeparator)) }

  /** `int`. */
  function Value(s: string): nat
    requires All(s, IsDecimal)
  {
    if s == [] then 0
    else
      assert s[|s| - 1] in s;
      10 * Value(s[..|s| - 1]) + Decimal(s[|s| - 1]).value
  }

  datatype Parsed = Pk(n: nat) | Unparseable | Raises

  function Numeral(text: string): Parsed {
    if !IsDigitText(text) then Unparseable else if All(text, IsDecimal) then Pk(Value(text)) else Raises
  }

  function Parse(value: string): Parsed {
    Numeral(Trimmed(Cut(Cut(Upper(Strip(value)), PREFIX), "#")))
  }

  method ParseReference(value: Option<string>) returns (pk: Parsed)
    ensures pk == if value.None? then Unparseable else Parse(value.value)
  {
    if value.None? { return Unparseable; }
    var text := Upper(Strip(value.value));
    var tokens := [PREFIX, "#"];
    for i := 0 to 2
      invariant Trimmed(Cut(Cut(Upper(Strip(value.value)), PREFIX), "#"))
                == Trimmed(if i == 0 then Cut(Cut(text, PREFIX), "#") else if i == 1 then Cut(text, "#") else text)
    {
      if tokens[i] <= text { text := text[|tokens[i]|..]; }
    }
    text := Strip(TrimLeft(Strip(text), IsSeparator));
    if !IsDigitText(text) { return Unparseable; }
    if !All(text, IsDecimal) { return Raises; }
    pk := Pk(Value(text));
  }

  /******* Spellings *******/

  /** Space, the prefix in any case, a hash, space, separators, space, digits, space; only the digits are required. */
  datatype Spelling = Spelling(before: string, prefix: string, hash: string, tail: Tail, after: string)

  datatype Tail = Tail(space: string, separators: string, gap: string, digits: string)

  ghost predicate GoodTail(t: Tail) {
    All(t.space, IsSpace) && All(t.separators, IsSeparator) && All(t.gap, IsSpace) && IsDigitText(t.digits)
  }

  ghost predicate Good(sp: Spelling) {
    && All(sp.before, IsSpace) && All(sp.after, IsSpace)
    && (sp.prefix == "" || Upper(sp.prefix) == PREFIX) && (sp.hash == "" || sp.hash == "#") && GoodTail(sp.tail)
  }

  function TailText(t: Tail): string { t.space + t.separators + t.gap + t.digits }

  function Text(sp: Spelling): string { sp.before + sp.prefix + sp.hash + TailText(sp.tail) + sp.after }

  /******* Trimming lemmas *******/

  lemma {:induction false} TrimLeftAll(a: string, chars: char -> bool)
    requires All(a, chars)
    ensures TrimLeft(a, chars) == []
  {
    if a != [] {
      assert a[0] in a;
      TrimLeftAll(a[1..], chars);
    }
  }

  lemma {:induction false} TrimLeftConcat(a: string, b: string, chars: char -> bool)
    ensures TrimLeft(a + b, chars) == if TrimLeft(a, chars) == [] then TrimLeft(b, chars) else TrimLeft(a, chars) + b
  {
    if a == [] {
      assert a + b == b;
    } else {
      assert (a + b)[0] == a[0] && (a + b)[1..] == a[1..] + b;
      if chars(a[0]) { TrimLeftConcat(a[1..], b, chars); }
    }
  }

  /** What trimming removed. */
  lemma {:induction false} TrimLeftSplit(s: string, chars: char -> bool) returns (cut: string)
    ensures s == cut + TrimLeft(s, chars) && All(cut, chars)
  {
    cut := [];
    if s != [] && chars(s[0]) {
      var rest := TrimLeftSplit(s[1..], chars);
      cut := [s[0]] + rest;
      AllConcat([s[0]], rest, chars);
      assert s == [s[0]] + s[1..] == [s[0]] + (rest + TrimLeft(s[1..], chars));
    }
  }

  lemma AllConcat(a: string, b: string, chars: char -> bool)
    requires All(a, chars) && All(b, chars)
    ensures All(a + b, chars)
  {
  }

  lemma {:induction false} TrimRightSplit(s: string, chars: char -> bool) returns (cut: string)
    ensures s == TrimRight(s, chars) + cut && All(cut, chars)
  {
    if s != [] && chars(s[|s| - 1]) {
      var rest := TrimRightSplit(s[..|s| - 1], chars);
      cut := rest + [s[|s| - 1]];
      assert s == s[..|s| - 1] + [s[|s| - 1]];
    } else {
      cut := [];
    }
  }

  lemma {:induction false} TrimRightAppend(a: string, b: string, chars: char -> bool)
    requires All(b, chars) && a != [] && !chars(a[|a| - 1])
    ensures TrimRight(a + b, chars) == a
  {
    if b == [] {
      assert a + b == a;
    } else {
      assert b[|b| - 1] in b && (a + b)[..|a + b| - 1] == a + b[..|b| - 1];
      TrimRightAppend(a, b[..|b| - 1], chars);
    }
  }

  lemma StripSplit(s: string) returns (before: string, after: string)
    ensures s == before + Strip(s) + after && All(before, IsSpace) && All(after, IsSpace)
  {
    before := TrimLeftSplit(s, IsSpace);
    after := TrimRightSplit(TrimLeft(s, IsSpace), IsSpace);
  }

  /** Text that ends in a digit, with space around it. */
  lemma StripAround(before: string, s: string, after: string)
    requires All(before, IsSpace) && All(after, IsSpace) && s != [] && !IsSpace(s[|s| - 1])
    ensures Strip(before + (s + after)) == TrimLeft(s, IsSpace)
    ensures TrimLeft(s, IsSpace) != []
  {
    TrimLeftAround(before, s, after);
    TrimLeftEnd(s, IsSpace);
    TrimRightAppend(TrimLeft(s, IsSpace), after, IsSpace);
  }

  lemma TrimLeftAround(before: string, s: string, after: string)
    requires All(before, IsSpace) && s != [] && !IsSpace(s[|s| - 1])
    ensures TrimLeft(before + (s + after), IsSpace) == TrimLeft(s, IsSpace) + after
  {
    TrimLeftAll(before, IsSpace);
    TrimLeftConcat(before, s + after, IsSpace);
    TrimLeftConcat(s, after, IsSpace);
    TrimLeftEnd(s, IsSpace);
  }

  lemma {:induction false} TrimLeftEnd(s: string, chars: char -> bool)
    requires s != [] && !chars(s[|s| - 1])
    ensures TrimLeft(s, chars) != [] && TrimLeft(s, chars)[|TrimLeft(s, chars)| - 1] == s[|s| - 1]
  {
    if chars(s[0]) { TrimLeftEnd(s[1..], chars); }
  }

  /******* Every spelling is read *******/

  lemma TrimNumeral(d: string, chars: char -> bool)
    requires IsDigitText(d) && forall c :: IsDigitChar(c) ==> !chars(c)
    ensures TrimLeft(d, chars) == d
  {
    assert d[0] in d;
  }

  lemma TailEnds(t: Tail)
    requires GoodTail(t)
    ensures TailText(t) != [] && IsDigitChar(TailText(t)[|TailText(t)| - 1])
  {
    assert TailText(t)[|TailText(t)| - 1] == t.digits[|t.digits| - 1];
    assert t.digits[|t.digits| - 1] in t.digits;
  }

  /** The tail without its leading space. */
  function Bare(t: Tail): Tail {
    var separators := TrimLeft(t.separators, IsSpace);
    Tail("", separators, if separators == [] then "" else t.gap, t.digits)
  }

  lemma {:induction false} TrimLeftKeeps(s: string, chars: char -> bool, kept: char -> bool)
    requires All(s, kept)
    ensures All(TrimLeft(s, chars), kept)
  {
    var cut := TrimLeftSplit(s, chars);
    forall c <- TrimLeft(s, chars) ensures kept(c) { assert c in s; }
  }

  lemma TrimTail(t: Tail)
    requires GoodTail(t)
    ensures GoodTail(Bare(t)) && TrimLeft(TailText(t), IsSpace) == TailText(Bare(t))
  {
    TrimLeftKeeps(t.separators, IsSpace, IsSeparator);
    assert TailText(t) == t.space + (t.separators + (t.gap + t.digits));
    TrimLeftAll(t.space, IsSpace);
    TrimLeftConcat(t.space, t.separators + (t.gap + t.digits), IsSpace);
    TrimLeftConcat(t.separators, t.gap + t.digits, IsSpace);
    TrimLeftAll(t.gap, IsSpace);
    TrimLeftConcat(t.gap, t.digits, IsSpace);
    TrimNumeral(t.digits, IsSpace);
    var s := TrimLeft(t.separators, IsSpace);
    assert s != [] ==> TailText(Bare(t)) == s + (t.gap + t.digits);
    assert s == [] ==> TailText(Bare(t)) == t.digits;
  }

  lemma TrimBare(t: Tail)
    requires GoodTail(t) && t.space == ""
    ensures Strip(TrimLeft(TailText(t), IsSeparator)) == t.digits
  {
    assert TailText(t) == t.separators + (t.gap + t.digits);
    TrimLeftAll(t.separators, IsSeparator);
    TrimLeftConcat(t.separators, t.gap + t.digits, IsSeparator);
    TrimLeftConcat(t.gap, t.digits, IsSeparator);
    TrimNumeral(t.digits, IsSeparator);
    TrimNumeral(t.digits, IsSpace);
    TrimLeftKeeps(t.gap, IsSeparator, IsSpace);
    assert t.digits[|t.digits| - 1] in t.digits;
    StripAround(TrimLeft(t.gap, IsSeparator), t.digits, "");
    assert TrimLeft(t.gap, IsSeparator) + (t.digits + "") == TrimLeft(t.gap, IsSeparator) + t.digits;
  }

  lemma TrimmedTail(t: Tail)
    requires GoodTail(t)
    ensures Trimmed(TailText(t)) == t.digits
  {
    TailEnds(t);
    StripAround("", TailText(t), "");
    assert "" + (TailText(t) + "") == TailText(t);
    TrimTail(t);
    TrimBare(Bare(t));
  }

  lemma HashIsSeparator(t: Tail)
    requires GoodTail(t) && "#" <= TailText(t)
    ensures t.space == "" && t.separators != ""
  {
    assert TailText(t) == t.space + (t.separators + (t.gap + t.digits));
    HeadOf(t.space, t.separators + (t.gap + t.digits));
    HeadOf(t.separators, t.gap + t.digits);
    NoHash(t.gap, t.digits);
  }

  lemma NoHash(gap: string, digits: string)
    requires All(gap, IsSpace) && IsDigitText(digits)
    ensures (gap + digits)[0] != '#'
  {
    HeadOf(gap, digits);
    HeadOf(digits, "");
  }

  lemma HeadOf(a: string, b: string)
    ensures a + b != "" ==> (a + b)[0] == if a == "" then b[0] else a[0]
    ensures a != "" ==> a[0] in a
    ensures a == "" ==> a + b == b
  {
  }

  lemma CutTail(t: Tail) returns (u: Tail)
    requires GoodTail(t)
    ensures GoodTail(u) && TailText(u) == Cut(TailText(t), "#") && u.digits == t.digits
  {
    u := t;
    var text := TailText(t);
    if "#" <= text {
      assert text[0] == '#';
      HashIsSeparator(t);
      u := t.(separators := t.separators[1..]);
      assert text[1..] == TailText(u);
    }
  }

  lemma UpperTail(t: Tail)
    requires GoodTail(t)
    ensures Upper(TailText(t)) == TailText(t)
  {
    forall i | 0 <= i < |TailText(t)| ensures UpperChar(TailText(t)[i]) == TailText(t)[i] {
      var c := TailText(t)[i];
      assert c in t.space || c in t.separators || c in t.gap || c in t.digits;
    }
  }

  lemma UpperConcat(a: string, b: string)
    ensures Upper(a + b) == Upper(a) + Upper(b)
  {
  }

  lemma HashedTail(hash: string, t: Tail)
    requires GoodTail(t) && (hash == "" || hash == "#")
    ensures Trimmed(Cut(hash + TailText(t), "#")) == t.digits
  {
    if hash == "#" {
      assert Cut(hash + TailText(t), "#") == TailText(t);
      TrimmedTail(t);
    } else {
      assert hash + TailText(t) == TailText(t);
      var u := CutTail(t);
      TrimmedTail(u);
    }
  }

  lemma NoPrefix(s: string)
    requires s == [] || s[0] != 'I'
    ensures Cut(s, PREFIX) == s
  {
  }

  lemma TailHead(t: Tail)
    requires GoodTail(t)
    ensures TailText(t)[..1] != "I"
  {
    TailEnds(t);
    var c := TailText(t)[0];
    assert c in t.space || c in t.separators || c in t.gap || c in t.digits;
  }

  /** Without a prefix, the first strip may already take the tail's own space. */
  lemma BareSpelling(hash: string, t: Tail)
    requires GoodTail(t) && (hash == "" || hash == "#")
    ensures Trimmed(Cut(Cut(Upper(TrimLeft(hash + TailText(t), IsSpace)), PREFIX), "#")) == t.digits
  {
    if hash == "#" {
      assert TrimLeft(hash + TailText(t), IsSpace) == hash + TailText(t);
      UpperTail(t);
      UpperConcat(hash, TailText(t));
      NoPrefix(hash + TailText(t));
      HashedTail(hash, t);
    } else {
      assert hash + TailText(t) == TailText(t);
      TrimTail(t);
      var u := Bare(t);
      UpperTail(u);
      TailEnds(u);
      TailHead(u);
      NoPrefix(TailText(u));
      HashedTail("", u);
      assert "" + TailText(u) == TailText(u);
    }
  }

  lemma PrefixedSpelling(prefix: string, hash: string, t: Tail)
    requires GoodTail(t) && (hash == "" || hash == "#") && Upper(prefix) == PREFIX
    ensures TrimLeft(prefix + hash + TailText(t), IsSpace) == prefix + hash + TailText(t)
    ensures Trimmed(Cut(Cut(Upper(prefix + hash + TailText(t)), PREFIX), "#")) == t.digits
  {
    var rest := hash + TailText(t);
    assert prefix + hash + TailText(t) == prefix + rest;
    assert Upper(prefix)[0] == 'I' == UpperChar(prefix[0]);
    UpperTail(t);
    UpperConcat(hash, TailText(t));
    assert Upper(hash) == hash;
    UpperConcat(prefix, rest);
    assert Cut(PREFIX + rest, PREFIX) == rest;
    HashedTail(hash, t);
  }

  lemma SpellingIsRead(sp: Spelling)
    requires Good(sp)
    ensures Parse(Text(sp)) == Numeral(sp.tail.digits)
  {
    var inner := sp.prefix + sp.hash + TailText(sp.tail);
    TailEnds(sp.tail);
    assert inner[|inner| - 1] == TailText(sp.tail)[|TailText(sp.tail)| - 1];
    assert Text(sp) == sp.before + (inner + sp.after);
    StripAround(sp.before, inner, sp.after);
    if sp.prefix == "" {
      assert inner == sp.hash + TailText(sp.tail);
      BareSpelling(sp.hash, sp.tail);
    } else {
      PrefixedSpelling(sp.prefix, sp.hash, sp.tail);
    }
  }

  /******* Only spellings are read *******/

  /** Upper-casing leaves everything but letters alone. */
  lemma UpperOnlyLetters(s: string, t: string)
    requires Upper(s) == t && forall c <- t :: !('A' <= c <= 'Z')
    ensures s == t
  {
    forall i | 0 <= i < |s| ensures s[i] == t[i] { assert t[i] in t; }
  }

  lemma TrimmedSplit(text: string) returns (t: Tail, after: string)
    requires IsDigitText(Trimmed(text))
    ensures GoodTail(t) && All(after, IsSpace) && text == TailText(t) + after && t.digits == Trimmed(text)
  {
    var space, end := StripSplit(text);
    var separators := TrimLeftSplit(Strip(text), IsSeparator);
    var gap, end' := StripSplit(TrimLeft(Strip(text), IsSeparator));
    t, after := Tail(space, separators, gap, Trimmed(text)), end' + end;
    Regrouped(space, separators, gap, t.digits, end', end);
  }

  lemma Regrouped(a: string, b: string, c: string, d: string, e: string, f: string)
    ensures a + (b + (c + d + e)) + f == a + b + c + d + (e + f)
  {
  }

  lemma NoLetters(hash: string, t: Tail, after: string)
    requires (hash == "" || hash == "#") && GoodTail(t) && All(after, IsSpace)
    ensures forall c <- hash + TailText(t) + after :: !('A' <= c <= 'Z')
  {
    forall c <- hash + TailText(t) + after ensures !('A' <= c <= 'Z') {
      assert c in hash || c in t.space || c in t.separators || c in t.gap || c in t.digits || c in after;
    }
  }

  lemma PrefixSplit(inner: string) returns (prefix: string, body: string)
    ensures inner == prefix + body && (prefix == "" || Upper(prefix) == PREFIX)
    ensures Cut(Upper(inner), PREFIX) == Upper(body)
  {
    if PREFIX <= Upper(inner) {
      prefix, body := inner[..3], inner[3..];
      UpperConcat(prefix, body);
      assert inner == prefix + body;
      assert Upper(prefix) == Upper(inner)[..3] == PREFIX;
    } else {
      prefix, body := "", inner;
    }
  }

  lemma HashSplit(body: string) returns (hash: string, t: Tail, after: string)
    requires IsDigitText(Trimmed(Cut(Upper(body), "#")))
    ensures (hash == "" || hash == "#") && GoodTail(t) && All(after, IsSpace)
    ensures body == hash + TailText(t) + after && t.digits == Trimmed(Cut(Upper(body), "#"))
  {
    hash := if "#" <= Upper(body) then "#" else "";
    t, after := TrimmedSplit(Cut(Upper(body), "#"));
    assert Upper(body) == hash + TailText(t) + after;
    NoLetters(hash, t, after);
    UpperOnlyLetters(body, hash + TailText(t) + after);
  }

  lemma Reassembled(before: string, prefix: string, hash: string, tail: string, after': string, after: string)
    ensures before + (prefix + (hash + tail + after')) + after == before + prefix + hash + tail + (after' + after)
  {
  }

  lemma ReadIsSpelling(value: string) returns (sp: Spelling)
    requires Parse(value) != Unparseable
    ensures Good(sp) && Text(sp) == value && Parse(value) == Numeral(sp.tail.digits)
  {
    var before, after := StripSplit(value);
    var prefix, body := PrefixSplit(Strip(value));
    var hash, t, after' := HashSplit(body);
    sp := Spelling(before, prefix, hash, t, after' + after);
    Reassembled(before, prefix, hash, TailText(t), after', after);
  }

  /** The parser reads a text as `n` exactly when the text spells `n`. */
  lemma ParsesExactlyTheSpellings(value: string, n: nat)
    ensures Parse(value) == Pk(n) <==>
            exists sp :: Good(sp) && Text(sp) == value && All(sp.tail.digits, IsDecimal) && Value(sp.tail.digits) == n
  {
    if Parse(value) == Pk(n) {
      var sp := ReadIsSpelling(value);
    }
    if sp :| Good(sp) && Text(sp) == value && All(sp.tail.digits, IsDecimal) && Value(sp.tail.digits) == n {
      SpellingIsRead(sp);
    }
  }

  /** It raises, instead of answering that there is no number, exactly on a spelling with a digit not taken by `int`. */
  lemma RaisesExactlyOnOtherDigits(value: string)
    ensures Parse(value) == Raises <==> exists sp :: Good(sp) && Text(sp) == value && !All(sp.tail.digits, IsDecimal)
  {
    if Parse(value) == Raises {
      var sp := ReadIsSpelling(value);
    }
    if sp :| Good(sp) && Text(sp) == value && !All(sp.tail.digits, IsDecimal) {
      SpellingIsRead(sp);
    }
  }

  /** Any one of the other digits will do. */
  lemma OtherDigitRaises(c: char)
    requires IsOtherDigit(c)
    ensures Parse("#" + [c]) == Raises
  {
    OtherDigitsApart(c);
    var sp := Spelling("", "", "#", Tail("", "", "", [c]), "");
    assert Text(sp) == "#" + [c] && sp.tail.digits[0] in sp.tail.digits;
    SpellingIsRead(sp);
  }

  lemma {:induction false} ValueOfAscii(s: string)
    requires forall c <- s :: IsDigit(c)
    ensures All(s, IsDecimal) && Value(s) == Read(s)
  {
    forall c <- s ensures IsDecimal(c) { AsciiDecimal(c); }
    if s != [] {
      assert s[|s| - 1] in s;
      AsciiDecimal(s[|s| - 1]);
      ValueOfAscii(s[..|s| - 1]);
    }
  }

  lemma PaddedReads(n: nat)
    ensures IsNumeral(Padded(n)) && Read(Padded(n)) == n && |Padded(n)| >= 6
  {
    ReadPrint(n);
    if |Print(n)| < 6 { ReadIgnoresLeadingZeros(6 - |Print(n)|, Print(n)); }
  }

  lemma PrefixIsUpper()
    ensures Upper(PREFIX) == PREFIX
  {
  }

  lemma ReferenceIsSpelling(n: nat) returns (sp: Spelling)
    ensures Good(sp) && Text(sp) == Reference(Some(n)) && sp.tail.digits == Padded(n)
  {
    PaddedReads(n);
    ValueOfAscii(Padded(n));
    PrefixIsUpper();
    sp := Spelling("", PREFIX, "", Tail("", "-", "", Padded(n)), "");
  }

  /** Parsing undoes printing, for every id, also beyond six digits. */
  lemma ParseReferenceRoundTrip(n: nat)
    ensures Parse(Reference(Some(n))) == Pk(n)
  {
    var sp := ReferenceIsSpelling(n);
    PaddedReads(n);
    ValueOfAscii(Padded(n));
    SpellingIsRead(sp);
  }

  /** A reference is "INQ-" and the number, padded with zeros to six digits; only numbers above 999999 take more. */
  lemma ReferenceShape(n: nat)
    ensures var text := Reference(Some(n));
            && |text| >= 10 && text[..4] == "INQ-" && IsNumeral(text[4..]) && Read(text[4..]) == n
            && (|text| == 10 <==> n <= 999999) && (n >= 100000 ==> text == "INQ-" + Print(n))
  {
    PaddedReads(n);
    PrintLength(n, 6);
    PrintLength(n, 5);
    assert Pow10(5) == 100000 && Pow10(6) == 1000000;
    assert Reference(Some(n))[4..] == Padded(n);
  }

  /** What is read as the prefix: any case, with the dotless i as an i. */
  lemma PrefixSpellings(prefix: string)
    ensures Upper(prefix) == "INQ" <==>
            |prefix| == 3 && prefix[0] in "Ii\U{0131}" && prefix[1] in "Nn" && prefix[2] in "Qq"
  {
    if |prefix| == 3 { assert Upper(prefix) == [UpperChar(prefix[0]), UpperChar(prefix[1]), UpperChar(prefix[2])]; }
  }

  lemma PlainText(prefix: string, hash: string, separators: string, digits: string)
    ensures Text(Spelling("", prefix, hash, Tail("", separators, "", digits), ""))
            == prefix + hash + separators + digits
  {
    var tail := TailText(Tail("", separators, "", digits));
    assert tail == separators + digits;
    assert "" + prefix + hash + tail + "" == prefix + hash + tail;
    assert prefix + hash + (separators + digits) == prefix + hash + separators + digits;
  }

  lemma SpelledNumber(lead: string, prefix: string, hash: string, separators: string, n: nat)
    requires lead == prefix + hash + separators && (prefix == "" || Upper(prefix) == PREFIX)
    requires (hash == "" || hash == "#") && All(separators, IsSeparator)
    ensures Parse(lead + Print(n)) == Pk(n)
  {
    PlainText(prefix, hash, separators, Print(n));
    NumeralIsSpelled(prefix, hash, separators, n);
  }

  lemma NumeralIsSpelled(prefix: string, hash: string, separators: string, n: nat)
    requires prefix == "" || Upper(prefix) == PREFIX
    requires (hash == "" || hash == "#") && All(separators, IsSeparator)
    ensures Parse(Text(Spelling("", prefix, hash, Tail("", separators, "", Print(n)), ""))) == Pk(n)
  {
    ReadPrint(n);
    ValueOfAscii(Print(n));
    SpellingIsRead(Spelling("", prefix, hash, Tail("", separators, "", Print(n)), ""));
  }

  /** The spellings that the documentation names. */
  lemma DocumentedSpellings(n: nat)
    ensures Parse("inq" + Print(n)) == Parse("INQ " + Print(n)) == Parse("#" + Print(n)) == Parse(Print(n)) == Pk(n)
  {
    PrefixSpellings("inq");
    PrefixSpellings("INQ");
    SpelledNumber("inq", "inq", "", "", n);
    SpelledNumber("INQ ", "INQ", "", " ", n);
    SpelledNumber("#", "", "#", "", n);
    SpelledNumber("", "", "", "", n);
    assert "" + Print(n) == Print(n);
  }
}
