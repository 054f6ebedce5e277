/** The per-card classification of `fetch_sms_from_api` (otp_bot.py, lines 172-194),
    lifted out as functions of the group id, the phone number and the message text:
    country, flag, service, code and the dedupe id of one scraped SMS. */
module Classifier {
  import opened Wrappers
  import opened Text

  const UnknownCountry: string := "Unknown Country"
  const UnknownService: string := "Unknown"
  const NoCode: string := "N/A"

  /** `SERVICE_KEYWORDS`, in the dictionary's insertion order (which is the order
      its items are iterated in). */
  const ServiceKeywords: seq<(string, seq<string>)> :=
    [("WhatsApp", ["whatsapp"]), ("Google", ["google", "gmail"]),
     ("Telegram", ["telegram"]), ("Unknown", ["unknown"])]

  /** `COUNTRY_FLAGS`: the Pakistani flag and the pirate flag. */
  const CountryFlags: map<string, string> :=
    map["Pakistan" := "\U{1F1F5}\U{1F1F0}",
        "Unknown Country" := "\U{1F3F4}\U{200D}\U{2620}\U{FE0F}"]

  /** One record of `all_messages` (the capture time is not modelled). */
  datatype Message = Message(id: string, number: string, country: string, flag: string,
                             service: string, code: string, fullSms: string)

  // ---------------------------------------------------------------- country

  /** The first whitespace-separated token of the group id, or the sentinel for an
      empty one; `None` is the `IndexError` a non-empty, all-whitespace group id
      raises. */
  function CountryOf(groupId: string): Option<string> {
    if groupId == [] then Some(UnknownCountry) else FirstToken(groupId)
  }

  /** The country is the sentinel for an empty group id, the first whitespace
      separated token otherwise, and the lookup raises exactly for a non-empty
      group id made of whitespace only. */
  lemma CountryOfSpec(groupId: string)
    ensures groupId == [] ==> CountryOf(groupId) == Some(UnknownCountry)
    ensures groupId != [] ==> (CountryOf(groupId).None? <==> AllSpace(groupId))
    ensures groupId != [] && CountryOf(groupId).Some? ==>
              exists lead, rest :: SplitsAs(groupId, lead, CountryOf(groupId).value, rest)
  {
    if groupId != [] {
      FirstTokenNoneIff(groupId);
      if FirstToken(groupId).Some? {
        FirstTokenSplits(groupId);
      }
    }
  }

  /** Conversely, whenever the group id splits with `tok` as its first token, the
      country is `tok`. */
  lemma CountryOfSplits(groupId: string, lead: string, tok: string, rest: string)
    requires SplitsAs(groupId, lead, tok, rest)
    ensures CountryOf(groupId) == Some(tok)
  {
    assert groupId[|lead|] == tok[0];
    FirstTokenNoneIff(groupId);
    FirstTokenSplits(groupId);
    var lead', rest' :| SplitsAs(groupId, lead', FirstToken(groupId).value, rest');
    SplitsAsUnique(groupId, lead', FirstToken(groupId).value, rest', lead, tok, rest);
  }

  // ------------------------------------------------------------------- flag

  /** The flag of the country, falling back to the unknown-country flag. */
  function FlagOf(country: string): (r: string)
    ensures r in CountryFlags.Values
  {
    if country in CountryFlags then CountryFlags[country] else CountryFlags[UnknownCountry]
  }

  /** A country without an entry is shown with the unknown-country flag, and a
      country with an entry with its own. */
  lemma FlagFallback(country: string)
    ensures country !in CountryFlags ==> FlagOf(country) == FlagOf(UnknownCountry)
    ensures country in CountryFlags ==> FlagOf(country) == CountryFlags[country]
  {
  }

  // ---------------------------------------------------------------- service

  /** Some keyword of the list occurs in the lowercased text. */
  predicate AnyKeyword(kws: seq<string>, lower: string) {
    exists n :: 0 <= n < |kws| && IsSubstring(kws[n], lower)
  }

  /** The first-match search over a keyword table, as a function. */
  function FirstService(table: seq<(string, seq<string>)>, lower: string): (r: string)
    ensures r == UnknownService || exists n :: 0 <= n < |table| && table[n].0 == r
  {
    if table == [] then UnknownService
    else if AnyKeyword(table[0].1, lower) then table[0].0
    else
      var r := FirstService(table[1..], lower);
      assert r != UnknownService ==> exists n :: 0 <= n < |table| && table[n].0 == r by {
        if r != UnknownService {
          var n :| 0 <= n < |table[1..]| && table[1..][n].0 == r;
          assert table[n + 1].0 == r;
        }
      }
      r
  }

  /** The entry at `i` is the result when it is the first entry with a matching
      keyword: an earlier entry always wins over a later one. */
  lemma {:induction false} FirstMatchWins(table: seq<(string, seq<string>)>, lower: string, i: nat)
    requires i < |table| && AnyKeyword(table[i].1, lower)
    requires forall j :: 0 <= j < i ==> !AnyKeyword(table[j].1, lower)
    ensures FirstService(table, lower) == table[i].0
  {
    if i > 0 {
      assert !AnyKeyword(table[0].1, lower);
      forall j | 0 <= j < i - 1 ensures !AnyKeyword(table[1..][j].1, lower) {
        assert table[1..][j] == table[j + 1];
      }
      FirstMatchWins(table[1..], lower, i - 1);
    }
  }

  /** No entry matches: the service is "Unknown". */
  lemma {:induction false} NoMatchIsUnknown(table: seq<(string, seq<string>)>, lower: string)
    requires forall j :: 0 <= j < |table| ==> !AnyKeyword(table[j].1, lower)
    ensures FirstService(table, lower) == UnknownService
  {
    if table != [] {
      assert !AnyKeyword(table[0].1, lower);
      forall j | 0 <= j < |table| - 1 ensures !AnyKeyword(table[1..][j].1, lower) {
        assert table[1..][j] == table[j + 1];
      }
      NoMatchIsUnknown(table[1..], lower);
    }
  }

  /** The loop over the keyword table that stops at the first matching entry. */
  method DetectService(text: string) returns (service: string)
    ensures service == FirstService(ServiceKeywords, Lower(text))
  {
    var lower := Lower(text);
    service := UnknownService;
    var i := 0;
    while i < |ServiceKeywords|
      invariant 0 <= i <= |ServiceKeywords|
      invariant forall j :: 0 <= j < i ==> !AnyKeyword(ServiceKeywords[j].1, lower)
    {
      var (name, kws) := ServiceKeywords[i];
      if AnyKeyword(kws, lower) {
        FirstMatchWins(ServiceKeywords, lower, i);
        service := name;
        return;
      }
      i := i + 1;
    }
    NoMatchIsUnknown(ServiceKeywords, lower);
  }

  // ------------------------------------------------------------------- code

  /** The evident meaning of the pattern at line 181: the regex `\b(\d{4,8})\b`
      matches `s[i..i+k]` (ASCII digits and word characters).

      As written, the source's raw string is `r'\\b(\\d{4,8})\\b'`, whose `\\` are
      literal backslashes; `CodeAsWritten` below models that reading. */
  ghost predicate CodeMatchAt(s: string, i: nat, k: nat) {
    4 <= k <= 8 && i + k <= |s| && AllDigits(s[i..i + k]) &&
    (i == 0 || !IsWordChar(s[i - 1])) &&
    (i + k == |s| || !IsWordChar(s[i + k]))
  }

  /** The length of the run of digits that starts at `i`. */
  function DigitRun(s: string, i: nat): (n: nat)
    requires i <= |s|
    ensures i + n <= |s| && AllDigits(s[i..i + n])
    ensures i + n == |s| || !IsDigit(s[i + n])
    decreases |s| - i
  {
    if i < |s| && IsDigit(s[i]) then
      var n := DigitRun(s, i + 1);
      assert s[i..i + 1 + n] == [s[i]] + s[i + 1..i + 1 + n];
      1 + n
    else 0
  }

  /** A code starts at `i`: a word boundary, then a maximal run of 4 to 8 digits,
      then a word boundary. */
  predicate CodeStartsAt(s: string, i: nat)
    requires i <= |s|
  {
    var n := DigitRun(s, i);
    (i == 0 || !IsWordChar(s[i - 1])) && 4 <= n <= 8 && (i + n == |s| || !IsWordChar(s[i + n]))
  }

  lemma {:induction false} DigitRunExact(s: string, i: nat, k: nat)
    requires i + k <= |s| && AllDigits(s[i..i + k])
    requires i + k == |s| || !IsDigit(s[i + k])
    ensures DigitRun(s, i) == k
    decreases k
  {
    if k > 0 {
      assert IsDigit(s[i..i + k][0]);
      assert s[i + 1..i + k] == s[i..i + k][1..];
      DigitRunExact(s, i + 1, k - 1);
    }
  }

  /** The regex matches at `i` exactly when a code starts there, and then the match
      is the whole digit run (the two `\b` rule out a longer or a shorter one). */
  lemma CodeMatchAtIff(s: string, i: nat, k: nat)
    requires i <= |s|
    ensures CodeMatchAt(s, i, k) <==> CodeStartsAt(s, i) && k == DigitRun(s, i)
  {
    if CodeMatchAt(s, i, k) {
      DigitRunExact(s, i, k);
    }
  }

  /** `re.search` for a code, scanning the start positions from `i` on. */
  function FindCodeFrom(s: string, i: nat): (r: Option<nat>)
    requires i <= |s|
    ensures r.Some? ==> i <= r.value < |s| && CodeStartsAt(s, r.value)
    ensures r.Some? ==> forall j :: i <= j < r.value ==> !CodeStartsAt(s, j)
    ensures r.None? ==> forall j :: i <= j <= |s| ==> !CodeStartsAt(s, j)
    decreases |s| - i
  {
    if i == |s| then None
    else if CodeStartsAt(s, i) then Some(i)
    else FindCodeFrom(s, i + 1)
  }

  /** The digits of the leftmost match, or `None` when the search finds nothing. */
  function MatchCode(s: string): (r: Option<string>)
    ensures r.Some? ==> 4 <= |r.value| <= 8 && AllDigits(r.value)
  {
    match FindCodeFrom(s, 0)
    case None => None
    case Some(i) => Some(s[i..i + DigitRun(s, i)])
  }

  /** The code field: either the sentinel or four to eight digits, and the sentinel
      means that nothing matched. */
  function CodeOf(s: string): (r: string)
    ensures r == NoCode || (4 <= |r| <= 8 && AllDigits(r))
    ensures r == NoCode <==> MatchCode(s).None?
  {
    match MatchCode(s)
    case None => NoCode
    case Some(c) => assert !IsDigit(NoCode[0]); c
  }

  /** Completeness: the leftmost match of the regex is the code. */
  lemma CodeIsLeftmostMatch(s: string, i: nat, k: nat)
    requires CodeMatchAt(s, i, k)
    requires forall j: nat, k': nat :: j < i ==> !CodeMatchAt(s, j, k')
    ensures MatchCode(s) == Some(s[i..i + k])
  {
    CodeMatchAtIff(s, i, k);
    forall j: nat | j < i ensures !CodeStartsAt(s, j) {
      CodeMatchAtIff(s, j, DigitRun(s, j));
    }
  }

  /** Soundness: a code is a match of the regex, and no match starts further left. */
  lemma CodeIsMatch(s: string)
    requires MatchCode(s).Some?
    ensures exists i: nat :: CodeMatchAt(s, i, |MatchCode(s).value|) &&
                             MatchCode(s).value == s[i..i + |MatchCode(s).value|] &&
                             forall j: nat, k: nat :: j < i ==> !CodeMatchAt(s, j, k)
  {
    var i := FindCodeFrom(s, 0).value;
    CodeMatchAtIff(s, i, DigitRun(s, i));
    forall j: nat, k: nat | j < i ensures !CodeMatchAt(s, j, k) {
      CodeMatchAtIff(s, j, k);
    }
    var c := MatchCode(s).value;
    assert c == s[i..i + DigitRun(s, i)] && |c| == DigitRun(s, i);
    assert CodeMatchAt(s, i, |c|) && c == s[i..i + |c|];
  }

  /** No match anywhere: the code is the sentinel. */
  lemma NoMatchNoCode(s: string)
    requires forall i: nat, k: nat :: !CodeMatchAt(s, i, k)
    ensures CodeOf(s) == NoCode
  {
    if FindCodeFrom(s, 0).Some? {
      var i := FindCodeFrom(s, 0).value;
      CodeMatchAtIff(s, i, DigitRun(s, i));
    }
  }

  // ------------------------------------------------- the pattern as written

  /** The length of the run of letters `d` that starts at `i`. */
  function LetterDRun(s: string, i: nat): (n: nat)
    requires i <= |s|
    ensures i + n <= |s|
    ensures forall j :: i <= j < i + n ==> s[j] == 'd'
    ensures i + n == |s| || s[i + n] != 'd'
    decreases |s| - i
  {
    if i < |s| && s[i] == 'd' then 1 + LetterDRun(s, i + 1) else 0
  }

  /** The raw string `r'\\b(\\d{4,8})\\b'` read literally: a backslash, `b`, then the
      group (a backslash and four to eight letters `d`), then a backslash and `b`. */
  predicate LiteralCodeAt(s: string, i: nat)
    requires i <= |s|
  {
    i + 3 <= |s| && s[i..i + 3] == "\\b\\" &&
    var n := LetterDRun(s, i + 3);
    4 <= n <= 8 && i + 5 + n <= |s| && s[i + 3 + n..i + 5 + n] == "\\b"
  }

  /** `re.search` for the literal pattern, scanning the start positions from `i` on. */
  function FindLiteralFrom(s: string, i: nat): (r: Option<nat>)
    requires i <= |s|
    ensures r.Some? ==> i <= r.value < |s| && s[r.value] == '\\' && LiteralCodeAt(s, r.value)
    ensures r.Some? ==> forall j :: i <= j < r.value ==> !LiteralCodeAt(s, j)
    ensures r.None? ==> forall j :: i <= j <= |s| ==> !LiteralCodeAt(s, j)
    decreases |s| - i
  {
    if i == |s| then None
    else if LiteralCodeAt(s, i) then Some(i)
    else FindLiteralFrom(s, i + 1)
  }

  /** Line 182 with the pattern exactly as written. */
  function CodeAsWritten(s: string): string {
    match FindLiteralFrom(s, 0)
    case None => NoCode
    case Some(i) => s[i + 2..i + 3 + LetterDRun(s, i + 3)]
  }

  /** As written, a text without a backslash never yields a code. */
  lemma AsWrittenNeedsBackslash(s: string)
    requires forall i :: 0 <= i < |s| ==> s[i] != '\\'
    ensures CodeAsWritten(s) == NoCode
  {
  }

  // --------------------------------------------------------------------- id

  function DigitChar(d: nat): (c: char)
    requires d < 10
    ensures IsDigit(c)
  {
    ('0' as int + d) as char
  }

  /** The decimal form of a natural number (`str` of a non-negative int). */
  function NatDecimal(n: nat): (r: string)
    ensures |r| > 0 && AllDigits(r)
  {
    if n < 10 then [DigitChar(n)] else NatDecimal(n / 10) + [DigitChar(n % 10)]
  }

  /** The decimal form of an integer, as an f-string renders Python's `hash` value. */
  function IntDecimal(n: int): (r: string)
    ensures |r| > 0
    ensures n < 0 <==> r[0] == '-'
    ensures n < 0 ==> AllDigits(r[1..])
    ensures n >= 0 ==> AllDigits(r)
  {
    if n < 0 then
      var d := NatDecimal(-n);
      assert ("-" + d)[1..] == d;
      "-" + d
    else NatDecimal(n)
  }

  /** The value of a digit character. */
  function DigitValue(c: char): (d: nat)
    requires IsDigit(c)
    ensures d < 10
  {
    c as int - '0' as int
  }

  /** The number a string of decimal digits denotes (`int` of a digit string). */
  function DecimalValue(s: string): nat
    requires AllDigits(s)
  {
    if s == [] then 0 else 10 * DecimalValue(s[..|s| - 1]) + DigitValue(s[|s| - 1])
  }

  /** The number an optionally signed digit string denotes (Python's `int(s)`). */
  function SignedValue(s: string): int
    requires s != [] && (if s[0] == '-' then AllDigits(s[1..]) else AllDigits(s))
  {
    if s[0] == '-' then -(DecimalValue(s[1..]) as int) else DecimalValue(s)
  }

  /** Reading back the decimal form of `n` gives `n`. */
  lemma {:induction false} NatDecimalValue(n: nat)
    ensures DecimalValue(NatDecimal(n)) == n
    decreases n
  {
    var r := NatDecimal(n);
    if n >= 10 {
      NatDecimalValue(n / 10);
      assert r[..|r| - 1] == NatDecimal(n / 10);
      assert DigitValue(r[|r| - 1]) == n % 10;
    } else {
      assert r[..|r| - 1] == [];
    }
  }

  /** Reading back the decimal form of `n` gives `n`, for negative `n` too. */
  lemma IntDecimalValue(n: int)
    ensures SignedValue(IntDecimal(n)) == n
  {
    if n < 0 {
      NatDecimalValue(-n);
      assert IntDecimal(n)[1..] == NatDecimal(-n);
    } else {
      NatDecimalValue(n);
    }
  }

  /** Different numbers have different decimal forms. */
  lemma IntDecimalInjective(a: int, b: int)
    ensures IntDecimal(a) == IntDecimal(b) ==> a == b
  {
    IntDecimalValue(a);
    IntDecimalValue(b);
  }

  /** The phone number, a dash, and the decimal hash of the text; Python's
      per-process `hash` is a parameter. The part after the dash reads back as
      the hash. */
  function MessageId(phone: string, text: string, hash: string -> int): (r: string)
    ensures |r| > |phone| + 1 && r[..|phone| + 1] == phone + "-"
    ensures var d := r[|phone| + 1..];
      d != [] && (if d[0] == '-' then AllDigits(d[1..]) else AllDigits(d)) &&
      SignedValue(d) == hash(text)
  {
    var d := IntDecimal(hash(text));
    var r := phone + "-" + d;
    assert r[..|phone| + 1] == phone + "-";
    assert r[|phone| + 1..] == d;
    IntDecimalValue(hash(text));
    r
  }

  /** For one phone number, two texts get the same id exactly when their hashes
      agree: the id is a key for the hash value. */
  lemma MessageIdKey(phone: string, t1: string, t2: string, hash: string -> int)
    ensures MessageId(phone, t1, hash) == MessageId(phone, t2, hash) <==> hash(t1) == hash(t2)
  {
    var r1, r2 := MessageId(phone, t1, hash), MessageId(phone, t2, hash);
    if r1 == r2 {
      assert r1[|phone| + 1..] == r2[|phone| + 1..];
    }
  }

  // ------------------------------------------------------------ the record

  /** The classification of one card, or `None` where the country lookup raises. */
  function Classify(groupId: string, phone: string, text: string, hash: string -> int): (r: Option<Message>)
    ensures r.None? <==> groupId != [] && AllSpace(groupId)
    ensures r.Some? ==> r.value.number == phone && r.value.fullSms == text
    ensures r.Some? ==> r.value.flag in CountryFlags.Values
    ensures r.Some? ==> r.value.code == NoCode || (4 <= |r.value.code| <= 8 && AllDigits(r.value.code))
    ensures r.Some? ==> exists n :: 0 <= n < |ServiceKeywords| && ServiceKeywords[n].0 == r.value.service
  {
    CountryOfSpec(groupId);
    match CountryOf(groupId)
    case None => None
    case Some(country) =>
      var service := FirstService(ServiceKeywords, Lower(text));
      assert service == UnknownService ==> ServiceKeywords[3].0 == service;
      Some(Message(MessageId(phone, text, hash), phone, country, FlagOf(country),
                   service, CodeOf(text), text))
  }

  /** The classification block as the source runs it, with the service loop. */
  method ClassifyCard(groupId: string, phone: string, text: string, hash: string -> int)
    returns (r: Option<Message>)
    ensures r == Classify(groupId, phone, text, hash)
  {
    if groupId != [] && FirstToken(groupId).None? {
      return None;
    }
    var country := if groupId == [] then UnknownCountry else FirstToken(groupId).value;
    var service := DetectService(text);
    var code := CodeOf(text);
    var id := MessageId(phone, text, hash);
    var flag := FlagOf(country);
    r := Some(Message(id, phone, country, flag, service, code, text));
  }
}
