/** Semantic versions without build metadata: parsing, printing and precedence (src/version.rs). */
module Version {
  import opened Wrappers
  import opened Text

  const U64_LIMIT: nat := 0x1_0000_0000_0000_0000

  datatype Identifier = Numeric(number: nat) | Text(text: string)

  datatype SemanticVersion = SemanticVersion(major: nat, minor: nat, patch: nat, preRelease: seq<Identifier>)

  datatype VersionError =
    | BuildMetadata
    | MissingNumber
    | EmptyNumber
    | LeadingZero
    | NotANumber
    | TooManyParts
    | EmptyPreRelease
    | EmptyIdentifier
    | InvalidCharacter

  // ---------- numbers ----------

  predicate IsDigit(c: char) {
    '0' <= c <= '9'
  }

  predicate AllDigits(s: string) {
    forall k | 0 <= k < |s| :: IsDigit(s[k])
  }

  function DigitValue(c: char): nat
    requires IsDigit(c)
  {
    (c - '0') as int
  }

  function Digit(n: nat): (c: char)
    requires n < 10
    ensures IsDigit(c) && DigitValue(c) == n
  {
    '0' + n as char
  }

  function DecimalValue(s: string): nat
    requires AllDigits(s)
  {
    if s == "" then 0 else 10 * DecimalValue(s[..|s|-1]) + DigitValue(s[|s|-1])
  }

  function Decimal(n: nat): (s: string)
    ensures s != "" && AllDigits(s)
  {
    if n < 10 then [Digit(n)] else Decimal(n / 10) + [Digit(n % 10)]
  }

  /** The canonical spelling: no leading zero unless the number is zero. */
  predicate Canonical(s: string) {
    s != "" && AllDigits(s) && (s == "0" || s[0] != '0')
  }

  lemma {:induction false} DecimalIsCanonical(n: nat)
    ensures Canonical(Decimal(n)) && DecimalValue(Decimal(n)) == n
    ensures Decimal(n)[0] == '0' ==> n == 0
  {
    if n >= 10 {
      DecimalIsCanonical(n / 10);
      var s := Decimal(n);
      assert s[..|s|-1] == Decimal(n / 10);
    } else {
      assert Decimal(n)[..0] == "";
    }
  }

  lemma {:induction false} CanonicalIsDecimal(s: string)
    requires Canonical(s)
    ensures Decimal(DecimalValue(s)) == s
    ensures s != "0" ==> DecimalValue(s) > 0
  {
    var front, last := s[..|s|-1], s[|s|-1];
    assert s == front + [last];
    if front == "" {
      assert DecimalValue(front) == 0;
      assert Digit(DigitValue(last)) == last;
    } else {
      assert front[0] == s[0];
      CanonicalIsDecimal(front);
      assert front != "0";
      assert Digit(DigitValue(last)) == last;
    }
  }

  /** `str::parse::<u64>` on text without a sign. */
  function ParseU64(s: string): Result<nat, VersionError> {
    if s != "" && AllDigits(s) && DecimalValue(s) < U64_LIMIT then Ok(DecimalValue(s)) else Err(NotANumber)
  }

  function ParseNumber(parts: seq<string>, index: nat): Result<nat, VersionError> {
    if index >= |parts| then Err(MissingNumber)
    else if parts[index] == "" then Err(EmptyNumber)
    else if parts[index] != "0" && parts[index][0] == '0' then Err(LeadingZero)
    else ParseU64(parts[index])
  }

  // ---------- identifiers ----------

  predicate IsIdentifierChar(c: char) {
    IsDigit(c) || 'a' <= c <= 'z' || 'A' <= c <= 'Z' || c == '-'
  }

  predicate ValidIdentifier(i: Identifier) {
    match i
    case Numeric(n) => n < U64_LIMIT
    case Text(t) => t != "" && (forall k | 0 <= k < |t| :: IsIdentifierChar(t[k])) && !AllDigits(t)
  }

  predicate ValidVersion(v: SemanticVersion) {
    && v.major < U64_LIMIT && v.minor < U64_LIMIT && v.patch < U64_LIMIT
    && forall k | 0 <= k < |v.preRelease| :: ValidIdentifier(v.preRelease[k])
  }

  function ParseIdentifier(s: string): Result<Identifier, VersionError> {
    if s == "" then Err(EmptyIdentifier)
    else if exists k | 0 <= k < |s| :: !IsIdentifierChar(s[k]) then Err(InvalidCharacter)
    else if AllDigits(s) then
      if s != "0" && s[0] == '0' then Err(LeadingZero)
      else
        var n :- ParseU64(s);
        Ok(Numeric(n))
    else Ok(Text(s))
  }

  function PrintIdentifier(i: Identifier): string {
    match i
    case Numeric(n) => Decimal(n)
    case Text(t) => t
  }

  function ParseIdentifiers(parts: seq<string>): Result<seq<Identifier>, VersionError> {
    if parts == [] then Ok([])
    else
      var first :- ParseIdentifier(parts[0]);
      var rest :- ParseIdentifiers(parts[1..]);
      Ok([first] + rest)
  }

  function PrintIdentifiers(ids: seq<Identifier>): seq<string> {
    seq(|ids|, k requires 0 <= k < |ids| => PrintIdentifier(ids[k]))
  }

  // ---------- whole versions ----------

  /** The text before the first dash and, when there is one, the text after it. */
  function SplitOnce(s: string): (string, Option<string>) {
    if s == "" then ("", None)
    else if s[0] == '-' then ("", Some(s[1..]))
    else
      var (core, pre) := SplitOnce(s[1..]);
      ([s[0]] + core, pre)
  }

  function ParsePreRelease(pre: Option<string>): Result<seq<Identifier>, VersionError> {
    match pre
    case None => Ok([])
    case Some(text) => if text == "" then Err(EmptyPreRelease) else ParseIdentifiers(Split(text, '.'))
  }

  function Parse(s: string): Result<SemanticVersion, VersionError> {
    if '+' in s then Err(BuildMetadata)
    else
      var (core, pre) := SplitOnce(s);
      var parts := Split(core, '.');
      var major :- ParseNumber(parts, 0);
      var minor :- ParseNumber(parts, 1);
      var patch :- ParseNumber(parts, 2);
      if |parts| > 3 then Err(TooManyParts)
      else
        var preRelease :- ParsePreRelease(pre);
        Ok(SemanticVersion(major, minor, patch, preRelease))
  }

  function PrintCore(v: SemanticVersion): string {
    Join([Decimal(v.major), Decimal(v.minor), Decimal(v.patch)], '.')
  }

  function Print(v: SemanticVersion): string {
    PrintCore(v) + if v.preRelease == [] then "" else "-" + Join(PrintIdentifiers(v.preRelease), '.')
  }

  /** `Display`: writes the pieces one after another. */
  method Display(v: SemanticVersion) returns (out: string)
    ensures out == Print(v)
  {
    out := Decimal(v.major) + "." + Decimal(v.minor) + "." + Decimal(v.patch);
    PrintCoreText(v);
    if v.preRelease != [] {
      out := out + "-";
      ghost var head := out;
      for index := 0 to |v.preRelease|
        invariant out == head + PrintedPrefix(v.preRelease, index)
      {
        PrintedStep(v.preRelease, index);
        if index > 0 {
          out := out + ".";
        }
        out := out + PrintIdentifier(v.preRelease[index]);
      }
      assert v.preRelease[..|v.preRelease|] == v.preRelease;
    }
  }

  ghost function PrintedPrefix(ids: seq<Identifier>, n: nat): string
    requires n <= |ids|
  {
    Join(PrintIdentifiers(ids[..n]), '.')
  }

  lemma PrintedStep(ids: seq<Identifier>, n: nat)
    requires n < |ids|
    ensures PrintedPrefix(ids, n + 1)
         == PrintedPrefix(ids, n) + (if n > 0 then "." else "") + PrintIdentifier(ids[n])
  {
    assert PrintIdentifiers(ids[..n+1]) == PrintIdentifiers(ids[..n]) + [PrintIdentifier(ids[n])];
    JoinSnoc(PrintIdentifiers(ids[..n]), PrintIdentifier(ids[n]), '.');
  }

  lemma PrintCoreText(v: SemanticVersion)
    ensures PrintCore(v) == Decimal(v.major) + "." + Decimal(v.minor) + "." + Decimal(v.patch)
  {
    JoinSnoc([Decimal(v.major)], Decimal(v.minor), '.');
    JoinSnoc([Decimal(v.major), Decimal(v.minor)], Decimal(v.patch), '.');
    assert [Decimal(v.major), Decimal(v.minor)] == [Decimal(v.major)] + [Decimal(v.minor)];
    assert [Decimal(v.major), Decimal(v.minor), Decimal(v.patch)]
        == [Decimal(v.major), Decimal(v.minor)] + [Decimal(v.patch)];
  }

  lemma {:induction false} JoinSnoc(parts: seq<string>, last: string, sep: char)
    ensures Join(parts + [last], sep) == if parts == [] then last else Join(parts, sep) + [sep] + last
  {
    if |parts| > 0 {
      JoinSnoc(parts[1..], last, sep);
      assert (parts + [last])[1..] == parts[1..] + [last];
    }
  }

  // ---------- parse and print undo each other ----------

  lemma {:induction false} SplitOnceSplits(s: string)
    ensures var (core, pre) := SplitOnce(s);
            Lacks(core, '-') && s == core + if pre.None? then "" else "-" + pre.value
  {
    if s != "" && s[0] != '-' {
      SplitOnceSplits(s[1..]);
    }
  }

  lemma {:induction false} SplitOnceFinds(core: string, pre: Option<string>)
    requires Lacks(core, '-')
    ensures SplitOnce(core + if pre.None? then "" else "-" + pre.value) == (core, pre)
  {
    var s := core + if pre.None? then "" else "-" + pre.value;
    if core == "" {
      if pre.Some? {
        assert s[1..] == pre.value;
      }
    } else {
      SplitOnceFinds(core[1..], pre);
      assert s[1..] == core[1..] + if pre.None? then "" else "-" + pre.value;
      assert core == [core[0]] + core[1..];
    }
  }

  lemma ParsePrintIdentifier(i: Identifier)
    requires ValidIdentifier(i)
    ensures ParseIdentifier(PrintIdentifier(i)) == Ok(i)
    ensures PrintIdentifier(i) != ""
              && forall k | 0 <= k < |PrintIdentifier(i)| :: IsIdentifierChar(PrintIdentifier(i)[k])
  {
    if i.Numeric? {
      DecimalIsCanonical(i.number);
    }
  }

  lemma PrintParseIdentifier(s: string)
    requires ParseIdentifier(s).Ok?
    ensures ValidIdentifier(ParseIdentifier(s).value) && PrintIdentifier(ParseIdentifier(s).value) == s
    ensures s != "" && forall k | 0 <= k < |s| :: IsIdentifierChar(s[k])
  {
    if AllDigits(s) {
      CanonicalIsDecimal(s);
    }
  }

  lemma {:induction false} ParsePrintIdentifiers(ids: seq<Identifier>)
    requires forall k | 0 <= k < |ids| :: ValidIdentifier(ids[k])
    ensures ParseIdentifiers(PrintIdentifiers(ids)) == Ok(ids)
    ensures AllLack(PrintIdentifiers(ids), '.') && AllLack(PrintIdentifiers(ids), '+')
  {
    forall k | 0 <= k < |ids|
      ensures Lacks(PrintIdentifiers(ids)[k], '.') && Lacks(PrintIdentifiers(ids)[k], '+')
    {
      ParsePrintIdentifier(ids[k]);
    }
    if ids != [] {
      ParsePrintIdentifier(ids[0]);
      ParsePrintIdentifiers(ids[1..]);
      assert PrintIdentifiers(ids)[1..] == PrintIdentifiers(ids[1..]);
      assert ids == [ids[0]] + ids[1..];
    }
  }

  lemma {:induction false} PrintParseIdentifiers(parts: seq<string>)
    requires ParseIdentifiers(parts).Ok?
    ensures var ids := ParseIdentifiers(parts).value;
            PrintIdentifiers(ids) == parts && forall k | 0 <= k < |ids| :: ValidIdentifier(ids[k])
  {
    if parts != [] {
      PrintParseIdentifier(parts[0]);
      PrintParseIdentifiers(parts[1..]);
      var ids := ParseIdentifiers(parts).value;
      assert ids[1..] == ParseIdentifiers(parts[1..]).value;
      assert PrintIdentifiers(ids) == [PrintIdentifier(ids[0])] + PrintIdentifiers(ids[1..]);
    }
  }

  lemma {:induction false} JoinLacks(parts: seq<string>, sep: char, c: char)
    requires AllLack(parts, c) && c != sep
    ensures Lacks(Join(parts, sep), c)
  {
    if |parts| > 0 {
      assert Lacks(parts[0], c);
      JoinLacks(parts[1..], sep, c);
    }
  }

  lemma CoreRoundTrip(v: SemanticVersion)
    requires ValidVersion(v)
    ensures var parts := Split(PrintCore(v), '.');
            && |parts| == 3
            && ParseNumber(parts, 0) == Ok(v.major)
            && ParseNumber(parts, 1) == Ok(v.minor)
            && ParseNumber(parts, 2) == Ok(v.patch)
    ensures Lacks(PrintCore(v), '-') && Lacks(PrintCore(v), '+')
  {
    DecimalIsCanonical(v.major);
    DecimalIsCanonical(v.minor);
    DecimalIsCanonical(v.patch);
    var parts := [Decimal(v.major), Decimal(v.minor), Decimal(v.patch)];
    assert AllLack(parts, '.') && AllLack(parts, '-') && AllLack(parts, '+') by {
      assert forall k | 0 <= k < |parts| :: AllDigits(parts[k]);
    }
    SplitJoin(parts, '.');
    JoinLacks(parts, '.', '-');
    JoinLacks(parts, '.', '+');
  }

  /** Printing a version and parsing the text gives the same version back. */
  lemma ParseAfterPrint(v: SemanticVersion)
    requires ValidVersion(v)
    ensures Parse(Print(v)) == Ok(v)
  {
    CoreRoundTrip(v);
    var texts := PrintIdentifiers(v.preRelease);
    var pre := if v.preRelease == [] then None else Some(Join(texts, '.'));
    SplitOnceFinds(PrintCore(v), pre);
    ParsePrintIdentifiers(v.preRelease);
    if v.preRelease != [] {
      SplitJoin(texts, '.');
      JoinLacks(texts, '.', '+');
      assert pre.value != "" by {
        ParsePrintIdentifier(v.preRelease[0]);
        assert texts[0] != "";
      }
    }
    assert Print(v) == PrintCore(v) + if pre.None? then "" else "-" + pre.value;
    assert '+' !in Print(v);
  }

  /** Every accepted text is exactly the printed form of the valid version it denotes. */
  lemma PrintAfterParse(s: string)
    requires Parse(s).Ok?
    ensures ValidVersion(Parse(s).value) && Print(Parse(s).value) == s
  {
    var v := Parse(s).value;
    var (core, pre) := SplitOnce(s);
    SplitOnceSplits(s);
    var parts := Split(core, '.');
    JoinSplit(core, '.');
    CanonicalIsDecimal(parts[0]);
    CanonicalIsDecimal(parts[1]);
    CanonicalIsDecimal(parts[2]);
    assert parts == [Decimal(v.major), Decimal(v.minor), Decimal(v.patch)];
    if pre.Some? {
      PrintParseIdentifiers(Split(pre.value, '.'));
      JoinSplit(pre.value, '.');
    }
  }

  predicate IsPlain(c: char) {
    '0' <= c <= '9' || 'a' <= c <= 'z' || 'A' <= c <= 'Z' || c in ['-', '.']
  }

  lemma PrintedLacks(v: SemanticVersion, c: char)
    requires ValidVersion(v) && !IsPlain(c)
    ensures Lacks(Print(v), c)
  {
    var parts := [Decimal(v.major), Decimal(v.minor), Decimal(v.patch)];
    forall k | 0 <= k < |parts|
      ensures Lacks(parts[k], c)
    {
      assert AllDigits(parts[k]);
    }
    JoinLacks(parts, '.', c);
    var texts := PrintIdentifiers(v.preRelease);
    forall k | 0 <= k < |texts|
      ensures Lacks(texts[k], c)
    {
      assert ValidIdentifier(v.preRelease[k]);
    }
    JoinLacks(texts, '.', c);
  }

  /** An accepted text consists of ASCII letters, digits, dots and dashes. */
  lemma AcceptedTextIsPlain(s: string, k: nat)
    requires Parse(s).Ok? && k < |s|
    ensures IsPlain(s[k])
  {
    PrintAfterParse(s);
    if !IsPlain(s[k]) {
      PrintedLacks(Parse(s).value, s[k]);
      assert false;
    }
  }

  // ---------- precedence ----------

  datatype Ordering = Less | Equal | Greater

  function CompareNat(a: nat, b: nat): Ordering {
    if a < b then Less else if a == b then Equal else Greater
  }

  function CompareText(l: string, r: string): Ordering {
    if l == "" || r == "" then CompareNat(|l|, |r|)
    else if l[0] < r[0] then Less
    else if l[0] > r[0] then Greater
    else CompareText(l[1..], r[1..])
  }

  function CompareIdentifier(l: Identifier, r: Identifier): Ordering {
    match (l, r)
    case (Numeric(a), Numeric(b)) => CompareNat(a, b)
    case (Numeric(_), Text(_)) => Less
    case (Text(_), Numeric(_)) => Greater
    case (Text(a), Text(b)) => CompareText(a, b)
  }

  /** The zipped walk: the first unequal pair decides, otherwise the lengths do. */
  function CompareIdentifiers(l: seq<Identifier>, r: seq<Identifier>): Ordering {
    if l == [] || r == [] then CompareNat(|l|, |r|)
    else
      var first := CompareIdentifier(l[0], r[0]);
      if first != Equal then first else CompareIdentifiers(l[1..], r[1..])
  }

  function ComparePreRelease(l: seq<Identifier>, r: seq<Identifier>): Ordering {
    if l == [] && r == [] then Equal
    else if l == [] then Greater
    else if r == [] then Less
    else CompareIdentifiers(l, r)
  }

  function Then(first: Ordering, second: Ordering): Ordering {
    if first == Equal then second else first
  }

  function Compare(a: SemanticVersion, b: SemanticVersion): Ordering {
    Then(CompareNat(a.major, b.major),
         Then(CompareNat(a.minor, b.minor),
              Then(CompareNat(a.patch, b.patch), ComparePreRelease(a.preRelease, b.preRelease))))
  }

  // Section 11 of Semantic Versioning 2.0.0, stated without the comparison loop.

  ghost predicate FirstDifference<T>(l: seq<T>, r: seq<T>, k: int) {
    0 <= k < |l| && k < |r| && l[..k] == r[..k] && l[k] != r[k]
  }

  ghost predicate TextPrecedes(l: string, r: string) {
    l < r || exists k :: FirstDifference(l, r, k) && l[k] < r[k]
  }

  /** 11.4.1 to 11.4.3: numbers numerically, texts in ASCII order, numbers below texts. */
  ghost predicate IdentifierPrecedes(l: Identifier, r: Identifier) {
    match (l, r)
    case (Numeric(a), Numeric(b)) => a < b
    case (Numeric(_), Text(_)) => true
    case (Text(_), Numeric(_)) => false
    case (Text(a), Text(b)) => TextPrecedes(a, b)
  }

  /** 11.3 and 11.4.4: a pre-release precedes its release; a proper prefix precedes a longer list. */
  ghost predicate PreReleasePrecedes(l: seq<Identifier>, r: seq<Identifier>) {
    l != [] && (r == [] || l < r || exists k :: FirstDifference(l, r, k) && IdentifierPrecedes(l[k], r[k]))
  }

  /** 11.2: major, minor and patch first, always numerically. */
  ghost predicate Precedes(a: SemanticVersion, b: SemanticVersion) {
    || a.major < b.major
    || (a.major == b.major && a.minor < b.minor)
    || (a.major == b.major && a.minor == b.minor && a.patch < b.patch)
    || (a.major == b.major && a.minor == b.minor && a.patch == b.patch
        && PreReleasePrecedes(a.preRelease, b.preRelease))
  }

  lemma {:induction false} CompareTextMeaning(l: string, r: string)
    ensures CompareText(l, r) == Less <==> TextPrecedes(l, r)
    ensures CompareText(l, r) == Equal <==> l == r
    ensures CompareText(l, r) == Greater <==> CompareText(r, l) == Less
  {
    if l != "" && r != "" {
      if l[0] == r[0] {
        CompareTextMeaning(l[1..], r[1..]);
        assert l == [l[0]] + l[1..] && r == [r[0]] + r[1..];
        ShiftDifference(l, r);
        if k :| FirstDifference(l, r, k) && l[k] < r[k] {
          assert FirstDifference(l[1..], r[1..], k - 1);
        }
        if k :| FirstDifference(l[1..], r[1..], k) && l[1..][k] < r[1..][k] {
          assert FirstDifference(l, r, k + 1);
        }
      } else {
        assert FirstDifference(l, r, 0);
      }
    }
  }

  lemma ShiftDifference<T>(l: seq<T>, r: seq<T>)
    requires l != [] && r != [] && l[0] == r[0]
    ensures forall k {:trigger FirstDifference(l, r, k)} | k > 0 ::
              FirstDifference(l, r, k) <==> FirstDifference(l[1..], r[1..], k - 1)
    ensures !FirstDifference(l, r, 0)
    ensures l < r <==> l[1..] < r[1..]
  {
    forall k | k > 0
      ensures FirstDifference(l, r, k) <==> FirstDifference(l[1..], r[1..], k - 1)
    {
      if k < |l| && k < |r| {
        assert l[..k] == [l[0]] + l[1..][..k-1];
        assert r[..k] == [r[0]] + r[1..][..k-1];
        assert l[1..][..k-1] == l[..k][1..];
        assert r[1..][..k-1] == r[..k][1..];
      }
    }
  }

  lemma CompareIdentifierMeaning(l: Identifier, r: Identifier)
    ensures CompareIdentifier(l, r) == Less <==> IdentifierPrecedes(l, r)
    ensures CompareIdentifier(l, r) == Equal <==> l == r
    ensures CompareIdentifier(l, r) == Greater <==> CompareIdentifier(r, l) == Less
  {
    if l.Text? && r.Text? {
      CompareTextMeaning(l.text, r.text);
    }
  }

  lemma {:induction false} CompareIdentifiersMeaning(l: seq<Identifier>, r: seq<Identifier>)
    ensures CompareIdentifiers(l, r) == Less
       <==> l < r || exists k :: FirstDifference(l, r, k) && IdentifierPrecedes(l[k], r[k])
    ensures CompareIdentifiers(l, r) == Equal <==> l == r
    ensures CompareIdentifiers(l, r) == Greater <==> CompareIdentifiers(r, l) == Less
  {
    if l != [] && r != [] {
      CompareIdentifierMeaning(l[0], r[0]);
      CompareIdentifierMeaning(r[0], l[0]);
      if l[0] == r[0] {
        CompareIdentifiersMeaning(l[1..], r[1..]);
        assert l == [l[0]] + l[1..] && r == [r[0]] + r[1..];
        ShiftDifference(l, r);
        if k :| FirstDifference(l, r, k) && IdentifierPrecedes(l[k], r[k]) {
          assert FirstDifference(l[1..], r[1..], k - 1);
        }
        if k :| FirstDifference(l[1..], r[1..], k) && IdentifierPrecedes(l[1..][k], r[1..][k]) {
          assert FirstDifference(l, r, k + 1);
        }
      } else {
        assert FirstDifference(l, r, 0);
      }
    }
  }

  /** The comparison is the precedence of section 11, and its equality is structural. */
  lemma CompareIsPrecedence(a: SemanticVersion, b: SemanticVersion)
    ensures Compare(a, b) == Less <==> Precedes(a, b)
    ensures Compare(a, b) == Equal <==> a == b
    ensures Compare(a, b) == Greater <==> Precedes(b, a)
  {
    CompareIdentifiersMeaning(a.preRelease, b.preRelease);
    CompareIdentifiersMeaning(b.preRelease, a.preRelease);
  }

  lemma {:induction false} CompareTextTransitive(a: string, b: string, c: string)
    requires CompareText(a, b) == Less && CompareText(b, c) == Less
    ensures CompareText(a, c) == Less
  {
    if a != "" && b != "" && c != "" && a[0] == b[0] == c[0] {
      CompareTextTransitive(a[1..], b[1..], c[1..]);
    }
  }

  lemma CompareIdentifierTransitive(a: Identifier, b: Identifier, c: Identifier)
    requires CompareIdentifier(a, b) == Less && CompareIdentifier(b, c) == Less
    ensures CompareIdentifier(a, c) == Less
  {
    if a.Text? && b.Text? && c.Text? {
      CompareTextTransitive(a.text, b.text, c.text);
    }
  }

  lemma {:induction false} CompareIdentifiersTransitive(a: seq<Identifier>, b: seq<Identifier>, c: seq<Identifier>)
    requires CompareIdentifiers(a, b) == Less && CompareIdentifiers(b, c) == Less
    ensures CompareIdentifiers(a, c) == Less
  {
    if a != [] && b != [] && c != [] {
      CompareIdentifierMeaning(a[0], b[0]);
      CompareIdentifierMeaning(b[0], c[0]);
      CompareIdentifierMeaning(a[0], c[0]);
      if a[0] == b[0] == c[0] {
        CompareIdentifiersTransitive(a[1..], b[1..], c[1..]);
      } else if a[0] != b[0] && b[0] != c[0] {
        CompareIdentifierTransitive(a[0], b[0], c[0]);
      }
    }
  }

  /** With CompareIsPrecedence this makes `Ord` a total order. */
  lemma CompareTransitive(a: SemanticVersion, b: SemanticVersion, c: SemanticVersion)
    requires Compare(a, b) == Less && Compare(b, c) == Less
    ensures Compare(a, c) == Less
  {
    if a.preRelease != [] && b.preRelease != [] && c.preRelease != []
       && CompareIdentifiers(a.preRelease, b.preRelease) == Less
       && CompareIdentifiers(b.preRelease, c.preRelease) == Less {
      CompareIdentifiersTransitive(a.preRelease, b.preRelease, c.preRelease);
    }
  }
}
