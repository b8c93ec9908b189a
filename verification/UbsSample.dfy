/** Sample addresses and pinned sources of the retained report (scripts/collect_ubs_report.py). */
module UbsSample {
  import opened Prelude
  import opened Sorting
  import opened Framing
  import opened Cutting

  datatype Severity = Critical | Warning | Info

  /** Text routines the collector calls but does not define. */
  datatype Text = Text(
    digest: Bytes -> string,
    decode: Bytes -> Option<string>,
    strip: string -> string,
    grammar: (string, string) -> bool)

  datatype Sample = Written(text: string) | Unencodable | NotText

  /** A pinned source that could be read. */
  datatype Source = Source(relative: string, path: string, lines: seq<Bytes>, matches: bool)

  datatype AddressState =
    | Unsupported | NotUtf8 | NotPinned | Malformed | OutOfRange | LineNotUtf8 | Mismatch | Parsed

  datatype Address = Address(relative: string, line: nat, code: string)

  datatype Record = Record(finding: nat, number: nat, severity: Severity, sample: Sample,
                           state: AddressState, address: Option<Address>, verified: bool)

  // ---------- Physical lines ----------

  const LF: Byte := 10

  /** Split at line feeds; a final empty piece is dropped. */
  function Lines(data: Bytes): seq<Bytes> {
    if data == [] then [] else
      var rest := Lines(data[1..]);
      if data[0] == LF then [[]] + rest
      else if rest == [] then [[data[0]]]
      else [[data[0]] + rest[0]] + rest[1..]
  }

  /** Every line followed by a line feed. */
  function Terminated(lines: seq<Bytes>): Bytes {
    if lines == [] then [] else lines[0] + [LF] + Terminated(lines[1..])
  }

  lemma TerminatedFront(b: Byte, lines: seq<Bytes>)
    requires lines != []
    ensures Terminated([[b] + lines[0]] + lines[1..]) == [b] + Terminated(lines)
  {
    assert ([[b] + lines[0]] + lines[1..])[1..] == lines[1..];
    assert ([b] + lines[0]) + [LF] + Terminated(lines[1..]) == [b] + (lines[0] + [LF] + Terminated(lines[1..]));
  }

  /** Lines lose nothing but a final line feed, and no line contains one. */
  lemma {:induction false} LinesConserve(data: Bytes)
    ensures forall l | l in Lines(data) :: LF !in l
    ensures data != [] ==> Lines(data) != []
    ensures Terminated(Lines(data)) == if data == [] || data[|data| - 1] == LF then data else data + [LF]
  {
    if data != [] {
      var rest := Lines(data[1..]);
      LinesConserve(data[1..]);
      assert data == [data[0]] + data[1..];
      if data[0] == LF {
        assert Lines(data)[1..] == rest;
      } else if rest == [] {
        assert Lines(data)[1..] == [];
      } else {
        TerminatedFront(data[0], rest);
        assert [data[0]] + (data[1..] + [LF]) == data + [LF];
      }
    }
  }

  // ---------- The `line:code` suffix ----------

  predicate IsDigit(c: char) { '0' <= c <= '9' }

  ghost predicate AllDigits(s: string) { forall i | 0 <= i < |s| :: IsDigit(s[i]) }

  function DigitCount(s: string): (n: nat)
    ensures n <= |s| && AllDigits(s[..n]) && (n < |s| ==> !IsDigit(s[n]))
  {
    if s == [] || !IsDigit(s[0]) then 0 else
      var n := 1 + DigitCount(s[1..]);
      assert s[..n] == [s[0]] + s[1..][..n - 1];
      n
  }

  function Decimal(digits: string): nat {
    if digits == [] then 0 else
      10 * Decimal(digits[..|digits| - 1]) +
      if IsDigit(digits[|digits| - 1]) then digits[|digits| - 1] as int - '0' as int else 0
  }

  /** The decimal numeral of a number. */
  function Numeral(n: nat): string {
    if n < 10 then [(n + '0' as int) as char] else Numeral(n / 10) + [(n % 10 + '0' as int) as char]
  }

  /** A numeral reads back as its number. */
  lemma {:induction false} NumeralReadsBack(n: nat)
    ensures Decimal(Numeral(n)) == n && AllDigits(Numeral(n)) && Numeral(n) != []
  {
    var s := Numeral(n);
    var d := (n % 10 + '0' as int) as char;
    if n >= 10 {
      NumeralReadsBack(n / 10);
      assert s[..|s| - 1] == Numeral(n / 10) && s[|s| - 1] == d;
    } else {
      assert s[..0] == [];
    }
  }

  /** And leading zeros do not matter. */
  lemma {:induction false} LeadingZero(s: string)
    ensures Decimal("0" + s) == Decimal(s)
  {
    if s == [] {
      assert "0" + s == "0" && "0"[..0] == [];
    } else {
      var n := |s| - 1;
      LeadingZero(s[..n]);
      assert ("0" + s)[..|s|] == "0" + s[..n];
    }
  }

  /** Python refuses to convert longer decimal strings. */
  const DIGIT_LIMIT := 4300

  /** The line number and the code of a suffix; None where the address is malformed. */
  function LineAndCode(suffix: string): Option<(nat, string)> {
    var n := DigitCount(suffix);
    if n == 0 || n == |suffix| || suffix[n] != ':' || n > DIGIT_LIMIT || Decimal(suffix[..n]) == 0 then None
    else Some((Decimal(suffix[..n]), suffix[n + 1..]))
  }

  ghost predicate SuffixOf(suffix: string, digits: string, line: nat, code: string) {
    && suffix == digits + ":" + code && AllDigits(digits) && 0 < |digits| <= DIGIT_LIMIT
    && Decimal(digits) == line >= 1
  }

  lemma {:induction false} DigitsEnd(s: string, digits: string, rest: string)
    requires s == digits + rest && AllDigits(digits) && rest != [] && !IsDigit(rest[0])
    ensures DigitCount(s) == |digits|
  {
    if digits != [] {
      assert IsDigit(digits[0]) && s[0] == digits[0];
      DigitsEnd(s[1..], digits[1..], rest);
    }
  }

  /** The parse finds the one way to read a suffix as a positive line number and code, if any. */
  lemma LineAndCodeExactly(suffix: string, line: nat, code: string)
    ensures LineAndCode(suffix) == Some((line, code)) <==> exists digits :: SuffixOf(suffix, digits, line, code)
  {
    var n := DigitCount(suffix);
    if LineAndCode(suffix) == Some((line, code)) {
      assert SuffixOf(suffix, suffix[..n], line, code);
    }
    if digits :| SuffixOf(suffix, digits, line, code) {
      DigitsEnd(suffix, digits, ":" + code);
      assert suffix[..n] == digits && suffix[n + 1..] == code;
    }
  }

  // ---------- Which pinned source a sample names ----------

  predicate Names(source: Source, text: string) { source.path + ":" <= text }

  /** No pinned name that begins the sample is longer. */
  ghost predicate Chosen(sources: seq<Source>, text: string, source: Source) {
    && source in sources && Names(source, text)
    && forall s | s in sources && Names(s, text) :: |s.path| <= |source.path|
  }

  ghost predicate DistinctPaths(sources: seq<Source>) {
    forall i, j | 0 <= i < j < |sources| :: sources[i].path != sources[j].path
  }

  lemma ChosenIsUnique(sources: seq<Source>, text: string, a: Source, b: Source)
    requires DistinctPaths(sources) && Chosen(sources, text, a) && Chosen(sources, text, b)
    ensures a == b
  {
    assert a.path == text[..|a.path|] == b.path;
  }

  predicate LongerFirst(a: Source, b: Source) { |a.path| >= |b.path| }

  function Suffix(source: Source, text: string): string
    requires Names(source, text)
  {
    text[|source.path| + 1..]
  }

  // ---------- Comparing native code with the pinned line ----------

  function Replace(s: string, c: char, piece: string): string {
    if s == [] then [] else (if s[0] == c then piece else [s[0]]) + Replace(s[1..], c, piece)
  }

  /** Replacing a character is cutting there and joining with the replacement. */
  lemma {:induction false} ReplaceMeans(s: string, c: char, piece: string)
    ensures Replace(s, c, piece) == Join(piece, Cut({c}, s))
  {
    if s != [] {
      ReplaceMeans(s[1..], c, piece);
      JoinPrepended(c, s[0], piece, Cut({c}, s[1..]));
    }
  }

  /** Equal after trimming, possibly with tabs written as two spaces. */
  predicate SameTrimmed(t: Text, code: string, line: string) {
    t.strip(code) == t.strip(line) || t.strip(code) == t.strip(Replace(line, '\t', "  "))
  }

  /** `code` is a trimmed line followed by a bracketed annotation of the rule's grammar. */
  predicate Annotates(t: Text, rule: string, code: string, line: string) {
    && line + "  [" <= code && |code| > |line| + 3 && code[|code| - 1] == ']'
    && t.grammar(rule, code[|line| + 3..|code| - 1])
  }

  predicate Annotated(t: Text, rule: Option<string>, code: string, line: string) {
    && rule.Some?
    && (Annotates(t, rule.value, code, t.strip(line)) ||
      Annotates(t, rule.value, code, Replace(t.strip(line), '\t', " ")))
  }

  /** The sample is confirmed by the pinned bytes of `source` at `line`. */
  predicate Confirmed(t: Text, rule: Option<string>, source: Source, line: nat, code: string) {
    && source.matches && 1 <= line <= |source.lines|
    && var decoded := t.decode(source.lines[line - 1]);
       decoded.Some? && (SameTrimmed(t, code, decoded.value) || Annotated(t, rule, code, decoded.value))
  }

  /** `code` repeats all of `line` and goes on with a bracketed annotation that the rule's grammar has. */
  ghost predicate Continues(t: Text, rule: string, code: string, line: string) {
    exists annotation: string :: t.grammar(rule, annotation) && code == line + "  [" + annotation + "]"
  }

  lemma AnnotatesExactly(t: Text, rule: string, code: string, line: string)
    ensures Annotates(t, rule, code, line) <==> Continues(t, rule, code, line)
  {
    if Annotates(t, rule, code, line) {
      var annotation := code[|line| + 3..|code| - 1];
      assert code == line + "  [" + annotation + "]";
    }
    if annotation: string :| t.grammar(rule, annotation) && code == line + "  [" + annotation + "]" {
      assert code[..|line| + 3] == line + "  [" && code[|line| + 3..|code| - 1] == annotation;
    }
  }

  /** The pinned bytes confirm the code exactly when the pin holds and the line exists and decodes to a text that is
      the code after trimming, as it stands or with two spaces for each tab, or that, trimmed, as it stands or
      with one space for each tab, is followed in the code by an annotation of the rule. */
  lemma ConfirmedExactly(t: Text, rule: Option<string>, source: Source, line: nat, code: string)
    ensures Confirmed(t, rule, source, line, code) <==>
      && source.matches && 1 <= line <= |source.lines| && t.decode(source.lines[line - 1]).Some?
      && var text := t.decode(source.lines[line - 1]).value;
         || t.strip(code) == t.strip(text)
         || t.strip(code) == t.strip(Join("  ", Cut({'\t'}, text)))
         || (rule.Some? && Continues(t, rule.value, code, t.strip(text)))
         || (rule.Some? && Continues(t, rule.value, code, Join(" ", Cut({'\t'}, t.strip(text)))))
  {
    if source.matches && 1 <= line <= |source.lines| && t.decode(source.lines[line - 1]).Some? {
      var text := t.decode(source.lines[line - 1]).value;
      ReplaceMeans(text, '\t', "  ");
      ReplaceMeans(t.strip(text), '\t', " ");
      if rule.Some? {
        AnnotatesExactly(t, rule.value, code, t.strip(text));
        AnnotatesExactly(t, rule.value, code, Replace(t.strip(text), '\t', " "));
      }
    }
  }

  // ---------- One record ----------

  /** What a record says about a sample that names `source`. */
  ghost predicate AddressedBy(t: Text, rule: Option<string>, text: string, source: Source, r: Record)
    requires Names(source, text)
  {
    match LineAndCode(Suffix(source, text))
    case None => r.state == Malformed && r.address == None && !r.verified
    case Some((line, code)) =>
      && r.address == Some(Address(source.relative, line, code))
      && r.verified == Confirmed(t, rule, source, line, code)
      && (r.verified <==> r.state == Parsed)
      && (r.state == OutOfRange <==> line > |source.lines|)
      && (r.state == LineNotUtf8 <==> line <= |source.lines| && t.decode(source.lines[line - 1]) == None)
      && r.state in {Parsed, OutOfRange, LineNotUtf8, Mismatch}
  }

  ghost predicate Describes(t: Text, rule: Option<string>, sources: seq<Source>, r: Record) {
    match r.sample
    case NotText => r.state == Unsupported && r.address == None && !r.verified
    case Unencodable => r.state == NotUtf8 && r.address == None && !r.verified
    case Written(text) =>
      if exists s :: s in sources && Names(s, text) then
        exists s :: Chosen(sources, text, s) && AddressedBy(t, rule, text, s, r)
      else r.state == NotPinned && r.address == None && !r.verified
  }

  method SampleRecord(t: Text, rule: Option<string>, sources: seq<Source>,
                      finding: nat, number: nat, severity: Severity, sample: Sample)
    returns (r: Record)
    ensures r.finding == finding && r.number == number && r.severity == severity && r.sample == sample
    ensures Describes(t, rule, sources, r)
  {
    r := Record(finding, number, severity, sample, Unsupported, None, false);
    if sample.NotText? { return; }
    if sample.Unencodable? {
      r := r.(state := NotUtf8);
      return;
    }
    var text := sample.text;
    var matches := Sort(LongerFirst, sources);
    assert TotalPreorder(LongerFirst);
    SortSorted(LongerFirst, sources);
    SortMembers(LongerFirst, sources);
    var i := 0;
    while i < |matches|
      invariant 0 <= i <= |matches| && forall j | 0 <= j < i :: !Names(matches[j], text)
    {
      if Names(matches[i], text) {
        assert Chosen(sources, text, matches[i]);
        r := AddressRecord(t, rule, text, matches[i], r);
        return;
      }
      i := i + 1;
    }
    r := r.(state := NotPinned);
  }

  method AddressRecord(t: Text, rule: Option<string>, text: string, source: Source, blank: Record) returns (r: Record)
    requires Names(source, text) && blank.address == None && !blank.verified
    ensures AddressedBy(t, rule, text, source, r)
    ensures r == blank.(state := r.state, address := r.address, verified := r.verified)
  {
    r := blank;
    var parsed := LineAndCode(Suffix(source, text));
    if parsed.None? {
      r := r.(state := Malformed);
      return;
    }
    var (line, code) := parsed.value;
    r := r.(address := Some(Address(source.relative, line, code)), state := Parsed);
    if line > |source.lines| {
      r := r.(state := OutOfRange);
      return;
    }
    var decoded := t.decode(source.lines[line - 1]);
    if decoded.None? {
      r := r.(state := LineNotUtf8);
      return;
    }
    var exact := SameTrimmed(t, code, decoded.value);
    var annotated := Annotated(t, rule, code, decoded.value);
    r := r.(verified := source.matches && (exact || annotated));
    if !r.verified { r := r.(state := Mismatch); }
  }

  // ---------- What a record proves ----------

  /** The sample reads `path:line:code` for this source, with `digits` as the line. */
  ghost predicate Cites(source: Source, digits: string, line: nat, code: string, text: string) {
    text == source.path + ":" + digits + ":" + code && SuffixOf(digits + ":" + code, digits, line, code)
  }

  /** A verified record quotes a pinned source whose bytes still match, at a line that exists and
      that the quoted code agrees with. */
  lemma VerifiedQuotesThePin(t: Text, rule: Option<string>, sources: seq<Source>, r: Record)
    requires Describes(t, rule, sources, r) && r.verified
    ensures r.sample.Written? && r.address.Some?
    ensures exists s, digits :: && Chosen(sources, r.sample.text, s) && s.relative == r.address.value.relative
              && Cites(s, digits, r.address.value.line, r.address.value.code, r.sample.text)
              && Confirmed(t, rule, s, r.address.value.line, r.address.value.code)
  {
    var text := r.sample.text;
    var s :| Chosen(sources, text, s) && AddressedBy(t, rule, text, s, r);
    var (line, code) := LineAndCode(Suffix(s, text)).value;
    var digits := SuffixIsCited(s, text, line, code);
    assert Chosen(sources, text, s) && Cites(s, digits, line, code, text);
  }

  lemma SuffixIsCited(source: Source, text: string, line: nat, code: string) returns (digits: string)
    requires Names(source, text) && LineAndCode(Suffix(source, text)) == Some((line, code))
    ensures Cites(source, digits, line, code, text)
  {
    var suffix := Suffix(source, text);
    LineAndCodeExactly(suffix, line, code);
    digits :| SuffixOf(suffix, digits, line, code);
    assert text == source.path + ":" + suffix;
    assert source.path + ":" + (digits + ":" + code) == source.path + ":" + digits + ":" + code;
  }

  lemma CitedSuffix(source: Source, digits: string, line: nat, code: string, text: string)
    requires Cites(source, digits, line, code, text)
    ensures Names(source, text) && LineAndCode(Suffix(source, text)) == Some((line, code))
  {
    var suffix := digits + ":" + code;
    assert text == source.path + ":" + suffix;
    LineAndCodeExactly(suffix, line, code);
  }

  /** A sample written for a pinned source is attributed to it, with its line and code, exactly when
      no longer pinned name also begins the sample. */
  lemma CitationIsRead(t: Text, rule: Option<string>, sources: seq<Source>, r: Record,
                       source: Source, digits: string, line: nat, code: string)
    requires DistinctPaths(sources) && source in sources
    requires forall i, j | 0 <= i < j < |sources| :: sources[i].relative != sources[j].relative
    requires r.sample.Written? && Cites(source, digits, line, code, r.sample.text)
    requires Describes(t, rule, sources, r)
    ensures r.address == Some(Address(source.relative, line, code)) <==> Chosen(sources, r.sample.text, source)
    ensures Chosen(sources, r.sample.text, source) ==> r.verified == Confirmed(t, rule, source, line, code)
  {
    var text := r.sample.text;
    CitedSuffix(source, digits, line, code, text);
    var s :| Chosen(sources, text, s) && AddressedBy(t, rule, text, s, r);
    if Chosen(sources, text, source) {
      ChosenIsUnique(sources, text, s, source);
    }
    if r.address == Some(Address(source.relative, line, code)) {
      assert s.relative == source.relative;
    }
  }

  /** Pins `x` and `x:1:y`: the sample written for line 1 of `x`, quoting `y:2:z`, is attributed to
      line 2 of `x:1:y`. */
  lemma LongerNameCaptures(t: Text, rule: Option<string>, path: string, lines: seq<Bytes>, more: seq<Bytes>, r: Record)
    requires r.sample == Written(path + ":1:y:2:z")
    requires Describes(t, rule, [Source("x", path, lines, true), Source("x:1:y", path + ":1:y", more, true)], r)
    ensures Cites(Source("x", path, lines, true), "1", 1, "y:2:z", r.sample.text)
    ensures r.address == Some(Address("x:1:y", 2, "z"))
  {
    var short, long := Source("x", path, lines, true), Source("x:1:y", path + ":1:y", more, true);
    assert path + ":1:y:2:z" == short.path + ":" + "1" + ":" + "y:2:z";
    assert path + ":1:y:2:z" == long.path + ":" + "2" + ":" + "z";
    OneDigit('1', 1, "y:2:z");
    OneDigit('2', 2, "z");
    LongerNameWins(t, rule, short, long, "2", 2, "z", r);
  }

  lemma LongerIsChosen(short: Source, long: Source, text: string)
    requires |short.path| < |long.path| && short.relative != long.relative && Names(long, text)
    ensures Chosen([short, long], text, long) && DistinctPaths([short, long])
    ensures forall i, j | 0 <= i < j < |[short, long]| :: [short, long][i].relative != [short, long][j].relative
  {
    assert [short, long][1] == long;
  }

  /** Of two pinned names that both begin a citation, the longer one is read. */
  lemma LongerNameWins(t: Text, rule: Option<string>, short: Source, long: Source, digits: string, line: nat,
                       code: string, r: Record)
    requires |short.path| < |long.path| && short.relative != long.relative
    requires r.sample.Written? && Cites(long, digits, line, code, r.sample.text)
    requires Describes(t, rule, [short, long], r)
    ensures r.address == Some(Address(long.relative, line, code))
  {
    CitedSuffix(long, digits, line, code, r.sample.text);
    LongerIsChosen(short, long, r.sample.text);
    CitationIsRead(t, rule, [short, long], r, long, digits, line, code);
  }

  lemma OneDigit(c: char, n: nat, code: string)
    requires '1' <= c <= '9' && n == c as int - '0' as int
    ensures SuffixOf([c] + ":" + code, [c], n, code)
  {
    assert [c][..0] == [];
  }

  // ---------- Pins ----------

  datatype Pin = Pin(relative: string, expected: string)

  datatype Disk = FollowsSymlink | Unreadable | File(data: Bytes)

  datatype PinProblem = Unavailable(relative: string) | Changed(relative: string)

  predicate HexDigit(c: char) { '0' <= c <= '9' || 'a' <= c <= 'f' }

  predicate IsSha256(s: string) { |s| == 64 && forall i | 0 <= i < |s| :: HexDigit(s[i]) }

  /** Relative, already in canonical form, without parent references or null characters. */
  predicate Canonical(relative: string) {
    '\0' !in relative && forall part | part in Cut({'/'}, relative) :: part != "" && part != "." && part != ".."
  }

  predicate Acceptable(pin: Pin, disk: string -> Disk) {
    Canonical(pin.relative) && IsSha256(pin.expected) && !disk(pin.relative).FollowsSymlink?
  }

  /** A name that can be a component of a pinned path. */
  ghost predicate ProperName(name: string) {
    name != "" && name != "." && name != ".." && '/' !in name && '\0' !in name
  }

  /** A pin is acceptable exactly when its path is a chain of proper names, its digest is 64 lower-case
      hexadecimal digits, and it follows no symbolic link. */
  lemma AcceptableExactly(pin: Pin, disk: string -> Disk)
    ensures Acceptable(pin, disk) <==>
      && (exists names: seq<string> ::
            names != [] && pin.relative == Join("/", names) && forall n | n in names :: ProperName(n))
      && |pin.expected| == 64 && (forall c | c in pin.expected :: c in "0123456789abcdef")
      && !disk(pin.relative).FollowsSymlink?
  {
    CanonicalExactly(pin.relative);
    forall c ensures HexDigit(c) <==> c in "0123456789abcdef" {}
  }

  lemma CanonicalExactly(relative: string)
    ensures Canonical(relative) <==> exists names: seq<string> ::
      names != [] && relative == Join("/", names) && forall n | n in names :: ProperName(n)
  {
    if Canonical(relative) {
      var names := Cut({'/'}, relative);
      JoinCut('/', relative);
      PiecesAreClean({'/'}, relative);
      forall n | n in names ensures ProperName(n) { CutMembers({'/'}, relative, n); }
    }
    if names: seq<string> :| names != [] && relative == Join("/", names) && forall n | n in names :: ProperName(n) {
      CutJoin('/', names);
      JoinMembers("/", names);
    }
  }

  function PathUnder(root: string, relative: string): string {
    if root == "/" then "/" + relative else root + "/" + relative
  }

  function Pinned(t: Text, root: string, pin: Pin, data: Bytes): Source {
    Source(pin.relative, PathUnder(root, pin.relative), Lines(data), t.digest(data) == pin.expected)
  }

  function Readable(t: Text, root: string, pins: seq<Pin>, disk: string -> Disk): seq<Source> {
    if pins == [] then [] else
      var (before, pin) := (Readable(t, root, pins[..|pins| - 1], disk), pins[|pins| - 1]);
      match disk(pin.relative)
      case File(data) => before + [Pinned(t, root, pin, data)]
      case _ => before
  }

  /** What a pin is reported for. */
  predicate Troubled(t: Text, pin: Pin, disk: string -> Disk, e: PinProblem) {
    && e.relative == pin.relative
    && match e
       case Unavailable(_) => !disk(pin.relative).File?
       case Changed(_) => disk(pin.relative).File? && t.digest(disk(pin.relative).data) != pin.expected
  }

  /** Every pin is on disk with the expected digest. */
  predicate Intact(t: Text, pins: seq<Pin>, disk: string -> Disk) {
    forall pin | pin in pins :: disk(pin.relative).File? && t.digest(disk(pin.relative).data) == pin.expected
  }

  /** The report on one pin, if any. */
  function Trouble(t: Text, pin: Pin, disk: string -> Disk): (r: seq<PinProblem>)
    ensures forall e :: e in r <==> Troubled(t, pin, disk, e)
  {
    if !disk(pin.relative).File? then [Unavailable(pin.relative)]
    else if t.digest(disk(pin.relative).data) != pin.expected then [Changed(pin.relative)]
    else []
  }

  ghost predicate Reported(t: Text, pins: seq<Pin>, disk: string -> Disk, e: PinProblem) {
    exists pin :: pin in pins && Troubled(t, pin, disk, e)
  }

  method PinnedSources(t: Text, root: string, pins: seq<Pin>, disk: string -> Disk)
    returns (r: Result<(seq<Source>, seq<PinProblem>), Pin>)
    ensures r.Success? <==> forall pin | pin in pins :: Acceptable(pin, disk)
    ensures r.Success? ==> r.value.0 == Readable(t, root, pins, disk)
    ensures r.Success? ==> forall e :: e in r.value.1 <==> Reported(t, pins, disk, e)
    ensures r.Failure? ==> r.error in pins && !Acceptable(r.error, disk)
  {
    var sources: seq<Source> := [];
    var errors: seq<PinProblem> := [];
    var i := 0;
    while i < |pins|
      invariant 0 <= i <= |pins| && forall pin | pin in pins[..i] :: Acceptable(pin, disk)
      invariant sources == Readable(t, root, pins[..i], disk)
      invariant forall e :: e in errors <==> Reported(t, pins[..i], disk, e)
    {
      var pin := pins[i];
      if !Acceptable(pin, disk) { return Failure(pin); }
      ReportedStep(t, pins, disk, i);
      assert pins[..i + 1] == pins[..i] + [pin];
      ghost var known := errors;
      if disk(pin.relative).File? {
        var source := Pinned(t, root, pin, disk(pin.relative).data);
        sources := sources + [source];
        if !source.matches { errors := errors + [Changed(pin.relative)]; }
      } else {
        errors := errors + [Unavailable(pin.relative)];
      }
      assert errors == known + Trouble(t, pin, disk);
      i := i + 1;
    }
    assert pins[..|pins|] == pins;
    r := Success((sources, errors));
  }

  lemma ReportedStep(t: Text, pins: seq<Pin>, disk: string -> Disk, i: nat)
    requires i < |pins|
    ensures forall e :: Reported(t, pins[..i + 1], disk, e) <==>
      Reported(t, pins[..i], disk, e) || Troubled(t, pins[i], disk, e)
  {
    assert pins[..i + 1] == pins[..i] + [pins[i]];
    forall e | Troubled(t, pins[i], disk, e) ensures Reported(t, pins[..i + 1], disk, e) {
      assert pins[i] in pins[..i + 1];
    }
    forall e | Reported(t, pins[..i], disk, e) ensures Reported(t, pins[..i + 1], disk, e) {
      var pin :| pin in pins[..i] && Troubled(t, pin, disk, e);
      assert pin in pins[..i + 1];
    }
  }

  ghost predicate ReadFrom(t: Text, root: string, pin: Pin, disk: string -> Disk, s: Source) {
    && disk(pin.relative).File?
    && var data := disk(pin.relative).data;
       s == Source(pin.relative, root + "/" + pin.relative, Lines(data), t.digest(data) == pin.expected)
  }

  /** The sources are what the readable pins say: under the root, cut into lines, checked against the digest. */
  lemma {:induction false} ReadableMembers(t: Text, root: string, pins: seq<Pin>, disk: string -> Disk, s: Source)
    requires root != "/"
    ensures s in Readable(t, root, pins, disk) <==> exists pin :: pin in pins && ReadFrom(t, root, pin, disk, s)
  {
    if pins != [] {
      var n := |pins| - 1;
      ReadableMembers(t, root, pins[..n], disk, s);
      assert pins == pins[..n] + [pins[n]];
      assert PathUnder(root, pins[n].relative) == root + "/" + pins[n].relative;
      assert s in Readable(t, root, pins, disk) <==>
        s in Readable(t, root, pins[..n], disk) || ReadFrom(t, root, pins[n], disk, s);
    }
  }

  /** Distinct pins are read as sources with distinct names, so a sample names at most one of the
      longest. */
  lemma {:induction false} PinsStayApart(t: Text, root: string, pins: seq<Pin>, disk: string -> Disk)
    requires forall i, j | 0 <= i < j < |pins| :: pins[i].relative != pins[j].relative
    ensures forall s | s in Readable(t, root, pins, disk) :: exists p :: p in pins && s.relative == p.relative
    ensures forall s | s in Readable(t, root, pins, disk) :: s.path == PathUnder(root, s.relative)
    ensures DistinctPaths(Readable(t, root, pins, disk))
    ensures var s := Readable(t, root, pins, disk); forall i, j | 0 <= i < j < |s| :: s[i].relative != s[j].relative
  {
    if pins != [] {
      var n := |pins| - 1;
      PinsStayApart(t, root, pins[..n], disk);
      var before := Readable(t, root, pins[..n], disk);
      forall s | s in before ensures s.relative != pins[n].relative && s.path != PathUnder(root, pins[n].relative) {
        var p :| p in pins[..n] && s.relative == p.relative;
        SamePathSameName(root, s.relative, pins[n].relative);
      }
    }
  }

  lemma SamePathSameName(root: string, a: string, b: string)
    ensures PathUnder(root, a) == PathUnder(root, b) ==> a == b
  {
    var n := |PathUnder(root, "")|;
    assert PathUnder(root, a)[n..] == a && PathUnder(root, b)[n..] == b;
  }
}
