/** How a whitelist rule travels through iptables and back: the argument list built from it, the
    kernel rule those arguments install, the options text iptables lists, and the two regular
    expressions that recover the entry. */
module RuleText {
  import opened Options
  import opened Tables

  // ---------- Decimal numbers ----------

  predicate IsDigit(ch: char) {
    '0' <= ch <= '9'
  }

  function Digit(n: nat): char
    requires n < 10
  {
    '0' + n as char
  }

  /** strconv.FormatUint(n, 10). */
  function Decimal(n: nat): string {
    if n < 10 then [Digit(n)] else Decimal(n / 10) + [Digit(n % 10)]
  }

  predicate AllDigits(s: string) {
    forall i :: 0 <= i < |s| ==> IsDigit(s[i])
  }

  function Value(s: string): nat
    requires AllDigits(s)
  {
    if s == [] then 0 else 10 * Value(s[..|s| - 1]) + (s[|s| - 1] - '0') as nat
  }

  /** The longest run of digits at the front, which is what a greedy \d+ takes. */
  function DigitRun(s: string): (d: string)
    ensures d <= s && AllDigits(d)
    ensures |d| < |s| ==> !IsDigit(s[|d|])
  {
    if s == [] || !IsDigit(s[0]) then [] else [s[0]] + DigitRun(s[1..])
  }

  lemma {:induction false} DecimalRoundTrip(n: nat)
    ensures Decimal(n) != [] && AllDigits(Decimal(n)) && Value(Decimal(n)) == n
    ensures n > 0 ==> Decimal(n)[0] != '0'
    ensures n < 1000 ==> |Decimal(n)| <= 3
  {
    if n < 10 {
      assert Value(Decimal(n)[..0]) == 0;
    } else {
      DecimalRoundTrip(n / 10);
      assert Decimal(n)[..|Decimal(n)| - 1] == Decimal(n / 10);
    }
  }

  lemma {:induction false} DigitRunStops(d: string, rest: string)
    requires AllDigits(d) && (rest == [] || !IsDigit(rest[0]))
    ensures DigitRun(d + rest) == d
  {
    if d == [] {
      assert d + rest == rest;
    } else {
      assert (d + rest)[1..] == d[1..] + rest;
      DigitRunStops(d[1..], rest);
    }
  }

  // ---------- IPv4 addresses ----------

  datatype Quad = Quad(a: nat, b: nat, c: nat, d: nat)

  predicate ValidQuad(q: Quad) {
    q.a < 256 && q.b < 256 && q.c < 256 && q.d < 256
  }

  type Address = q: Quad | ValidQuad(q) witness Quad(0, 0, 0, 0)

  function Dotted(n: nat, rest: string): string {
    Decimal(n) + ("." + rest)
  }

  /** net.IP.String on an IPv4 address. */
  function Show(q: Quad): string {
    Dotted(q.a, Dotted(q.b, Dotted(q.c, Decimal(q.d))))
  }

  /** One octet: one to three digits, no leading zero, at most 255. */
  function ParseOctet(s: string): Option<nat> {
    var d := DigitRun(s);
    if d == [] || |d| > 3 || (|d| > 1 && d[0] == '0') || Value(d) > 255 then None else Some(Value(d))
  }

  /** The rest of the text after its leading digits and a dot, if that is what it starts with. */
  function AfterDot(s: string): Option<string> {
    var rest := s[|DigitRun(s)|..];
    if rest != [] && rest[0] == '.' then Some(rest[1..]) else None
  }

  function ParseQuad(s: string): (q: Option<Quad>)
    ensures q.Some? ==> ValidQuad(q.value)
  {
    var a, s1 := ParseOctet(s), AfterDot(s);
    if a.None? || s1.None? then None else
    var b, s2 := ParseOctet(s1.value), AfterDot(s1.value);
    if b.None? || s2.None? then None else
    var c, s3 := ParseOctet(s2.value), AfterDot(s2.value);
    if c.None? || s3.None? then None else
    var d := ParseOctet(s3.value);
    if d.None? || DigitRun(s3.value) != s3.value then None
    else Some(Quad(a.value, b.value, c.value, d.value))
  }

  lemma LastOctetParses(n: nat)
    requires n < 256
    ensures ParseOctet(Decimal(n)) == Some(n) && DigitRun(Decimal(n)) == Decimal(n)
  {
    DecimalRoundTrip(n);
    DigitRunStops(Decimal(n), "");
    assert Decimal(n) + "" == Decimal(n);
    assert n == 0 ==> Decimal(n) == [Digit(0)];
  }

  lemma DottedParses(n: nat, rest: string)
    requires n < 256
    ensures ParseOctet(Dotted(n, rest)) == Some(n) && AfterDot(Dotted(n, rest)) == Some(rest)
  {
    DecimalRoundTrip(n);
    DigitRunStops(Decimal(n), "." + rest);
    assert Dotted(n, rest)[|Decimal(n)|..] == "." + rest;
    assert ("." + rest)[1..] == rest;
    assert n == 0 ==> Decimal(n) == [Digit(0)];
  }

  lemma QuadRoundTrip(q: Quad)
    requires ValidQuad(q)
    ensures ParseQuad(Show(q)) == Some(q)
  {
    LastOctetParses(q.d);
    DottedParses(q.c, Decimal(q.d));
    DottedParses(q.b, Dotted(q.c, Decimal(q.d)));
    DottedParses(q.a, Dotted(q.b, Dotted(q.c, Decimal(q.d))));
  }

  /** The other way round: digits without a leading zero are the decimal form of their value. */
  lemma {:induction false} DecimalOfValue(d: string)
    requires d != [] && AllDigits(d) && (|d| > 1 ==> d[0] != '0')
    ensures Decimal(Value(d)) == d && (d[0] != '0' ==> Value(d) > 0)
  {
    var init, last := d[..|d| - 1], (d[|d| - 1] - '0') as nat;
    assert d == init + [Digit(last)];
    if |d| > 1 {
      DecimalOfValue(init);
      assert Value(d) == 10 * Value(init) + last;
      assert Value(d) / 10 == Value(init) && Value(d) % 10 == last;
    } else {
      assert init == [] && Value(d) == last;
    }
  }

  lemma OctetIsDecimal(s: string)
    requires ParseOctet(s).Some?
    ensures Decimal(ParseOctet(s).value) == DigitRun(s)
    ensures AfterDot(s).Some? ==> s == Dotted(ParseOctet(s).value, AfterDot(s).value)
  {
    var d := DigitRun(s);
    DecimalOfValue(d);
    assert s == d + s[|d|..];
    if AfterDot(s).Some? {
      assert s[|d|..] == "." + s[|d|..][1..];
    }
  }

  /** Whatever parses as an IPv4 address is the canonical text of that address. */
  lemma ParsedIsCanonical(s: string)
    requires ParseQuad(s).Some?
    ensures Show(ParseQuad(s).value) == s
  {
    var s1 := AfterDot(s).value;
    var s2 := AfterDot(s1).value;
    var s3 := AfterDot(s2).value;
    OctetIsDecimal(s);
    OctetIsDecimal(s1);
    OctetIsDecimal(s2);
    OctetIsDecimal(s3);
  }

  // ---------- Rules in the kernel ----------

  /** A rule of the chain: one of ours, or anything else an administrator put there. */
  datatype KernelRule =
    | Accept(source: Address, dport: nat, comment: string)
    | Foreign(source: Address, options: string)

  /** buildRuleString. */
  function BuildRuleSpec(e: RuleEntry): seq<string> {
    ["-p", "tcp", "-m", "state", "--state", "NEW", "-s", e.ip, "--dport", Decimal(e.port),
     "-m", "comment", "--comment", "user: " + e.email, "-j", "ACCEPT"]
  }

  /** The words iptables expects for accepting new TCP connections from `ip` to `port`. */
  function SpecWords(ip: string, port: string, comment: string): seq<string> {
    ["-p", "tcp", "-m", "state", "--state", "NEW", "-s", ip, "--dport", port,
     "-m", "comment", "--comment", comment, "-j", "ACCEPT"]
  }

  /** How iptables reads an argument list; None is a command-line error. */
  function Interpret(spec: seq<string>): Option<KernelRule> {
    if |spec| != 16 || spec != SpecWords(spec[7], spec[9], spec[13]) then None else
    var source := ParseQuad(spec[7]);
    if source.None? || spec[9] == [] || !AllDigits(spec[9]) || Value(spec[9]) > 65535 then None
    else Some(Accept(source.value, Value(spec[9]), spec[13]))
  }

  /** The options column of the listing. */
  function ListedOptions(k: KernelRule): string {
    match k
    case Accept(_, dport, comment) => "state NEW tcp dpt:" + Decimal(dport) + " /* " + comment + " */"
    case Foreign(_, options) => options
  }

  // ---------- Reading a rule back ----------

  /** FindStringSubmatch of `dpt:(\d+)`: the leftmost match's digits. */
  function FindPort(s: string): Option<string> {
    if |s| < 5 then None
    else if s[..4] == "dpt:" && IsDigit(s[4]) then Some(DigitRun(s[4..]))
    else FindPort(s[1..])
  }

  predicate EmailHere(s: string) {
    |s| > 12 && s[..9] == "/* user: " && s[|s| - 3..] == " */" && '\n' !in s[9..|s| - 3]
  }

  // FindStringSubmatch of ruleUserEmailRegexp: the leftmost place where the marker opens and the rest
  // of the text closes it, with at least one character and no newline in between.
  function FindEmail(s: string): Option<string> {
    if s == [] then None
    else if EmailHere(s) then Some(s[9..|s| - 3])
    else FindEmail(s[1..])
  }

  /** One iteration of retrieveExistingRules; None is its error return. */
  function ReadRule(k: KernelRule): Option<RuleEntry> {
    var opts := ListedOptions(k);
    var digits := FindPort(opts);
    if digits.None? || !AllDigits(digits.value) || Value(digits.value) > 65535 then None else
    var email := FindEmail(opts);
    if email.None? then None
    else Some(RuleEntry(Show(k.source), Value(digits.value), email.value))
  }

  // The two searches find the leftmost match, and only a match.

  predicate PortAt(s: string, i: nat) {
    i + 5 <= |s| && s[i..i + 4] == "dpt:" && '0' <= s[i + 4] <= '9'
  }

  ghost predicate LeftmostPort(s: string, i: nat) {
    PortAt(s, i) && forall j: nat :: j < i ==> !PortAt(s, j)
  }

  /** The port found is the digits at the leftmost place where the marker is followed by a digit. */
  lemma {:induction false} FindPortIsLeftmost(s: string)
    ensures FindPort(s).None? ==> forall i: nat :: !PortAt(s, i)
    ensures FindPort(s).Some? ==> exists i: nat :: LeftmostPort(s, i) && FindPort(s) == Some(DigitRun(s[i + 4..]))
  {
    if |s| < 5 {
    } else {
      PortAtFront(s);
      if PortAt(s, 0) {
        assert LeftmostPort(s, 0);
      } else {
        FindPortIsLeftmost(s[1..]);
        if FindPort(s).Some? {
          var i: nat :| LeftmostPort(s[1..], i) && FindPort(s[1..]) == Some(DigitRun(s[1..][i + 4..]));
          assert s[1..][i + 4..] == s[i + 1 + 4..];
          LeftmostLater(s, i);
        } else {
          NoPortLater(s);
        }
      }
    }
  }

  lemma LeftmostLater(s: string, i: nat)
    requires s != "" && !PortAt(s, 0) && LeftmostPort(s[1..], i)
    ensures LeftmostPort(s, i + 1)
  {
    PortFurther(s, i);
    forall j: nat | j < i + 1 ensures !PortAt(s, j) {
      if j > 0 {
        PortFurther(s, j - 1);
      }
    }
  }

  lemma NoPortLater(s: string)
    requires s != "" && !PortAt(s, 0) && forall i: nat :: !PortAt(s[1..], i)
    ensures forall i: nat :: !PortAt(s, i)
  {
    forall i: nat ensures !PortAt(s, i) {
      if i > 0 {
        PortFurther(s, i - 1);
      }
    }
  }

  lemma PortAtFront(s: string)
    requires |s| >= 5
    ensures PortAt(s, 0) ==> FindPort(s) == Some(DigitRun(s[0 + 4..]))
    ensures !PortAt(s, 0) ==> FindPort(s) == FindPort(s[1..])
  {
    assert s[0..0 + 4] == s[..4] && s[0 + 4..] == s[4..];
  }

  lemma PortFurther(s: string, i: nat)
    requires s != ""
    ensures PortAt(s, i + 1) <==> PortAt(s[1..], i)
  {
    if i + 6 <= |s| {
      assert s[1..][i..i + 4] == s[i + 1..i + 1 + 4];
    }
  }

  predicate EmailAt(s: string, i: nat) {
    && i + 12 < |s| && s[i..i + 9] == "/* user: " && s[|s| - 3..] == " */"
    && forall j :: i + 9 <= j < |s| - 3 ==> s[j] != '\n'
  }

  ghost predicate LeftmostEmail(s: string, i: nat) {
    EmailAt(s, i) && forall j: nat :: j < i ==> !EmailAt(s, j)
  }

  /** The email found stands between the leftmost marker on the last line and the closing of the comment. */
  lemma {:induction false} FindEmailIsLeftmost(s: string)
    ensures FindEmail(s).None? ==> forall i: nat :: !EmailAt(s, i)
    ensures FindEmail(s).Some? ==> exists i: nat :: LeftmostEmail(s, i) && FindEmail(s) == Some(s[i + 9..|s| - 3])
  {
    if s == "" {
    } else {
      EmailHereIsAt(s);
      if EmailHere(s) {
        assert LeftmostEmail(s, 0);
      } else {
        FindEmailIsLeftmost(s[1..]);
        forall i: nat | i > 0 ensures EmailAt(s, i) <==> EmailAt(s[1..], i - 1) {
          EmailFurther(s, i - 1);
        }
        if FindEmail(s).Some? {
          var i: nat :| LeftmostEmail(s[1..], i) && FindEmail(s[1..]) == Some(s[1..][i + 9..|s[1..]| - 3]);
          assert s[1..][i + 9..|s[1..]| - 3] == s[i + 1 + 9..|s| - 3];
          assert LeftmostEmail(s, i + 1);
        }
      }
    }
  }

  lemma EmailHereIsAt(s: string)
    ensures EmailHere(s) <==> EmailAt(s, 0)
  {
    if |s| > 12 {
      assert s[0..0 + 9] == s[..9];
      assert '\n' in s[9..|s| - 3] <==> exists j :: 9 <= j < |s| - 3 && s[j] == '\n';
    }
  }

  lemma EmailFurther(s: string, i: nat)
    requires s != ""
    ensures EmailAt(s, i + 1) <==> EmailAt(s[1..], i)
  {
    var u := s[1..];
    if i + 13 < |s| {
      assert u[i..i + 9] == s[i + 1..i + 1 + 9] && u[|u| - 3..] == s[|s| - 3..];
      assert forall j :: 0 <= j < |u| ==> u[j] == s[j + 1];
      assert (forall j :: i + 9 <= j < |u| - 3 ==> u[j] != '\n') ==>
             forall j :: i + 10 <= j < |s| - 3 ==> s[j] == u[j - 1] != '\n';
    }
  }

  predicate GoodEmail(email: string) {
    email != "" && '\n' !in email
  }

  /** The entries iptables can hold and list back unchanged. */
  predicate Representable(e: RuleEntry) {
    ParseQuad(e.ip).Some? && e.port < 65536 && GoodEmail(e.email)
  }

  lemma SpecFields(ip: string, port: string, comment: string)
    ensures var spec := SpecWords(ip, port, comment);
            |spec| == 16 && spec[7] == ip && spec[9] == port && spec[13] == comment
  {
  }

  lemma SpecInterprets(ip: string, port: string, comment: string)
    requires ParseQuad(ip).Some? && port != [] && AllDigits(port) && Value(port) <= 65535
    ensures Interpret(SpecWords(ip, port, comment)) == Some(Accept(ParseQuad(ip).value, Value(port), comment))
  {
    SpecFields(ip, port, comment);
  }

  lemma BuiltSpecIsExpected(e: RuleEntry)
    ensures BuildRuleSpec(e) == SpecWords(e.ip, Decimal(e.port), "user: " + e.email)
  {
  }

  /** iptables takes the built arguments exactly for IPv4 addresses and uint16 ports. */
  lemma SpecInstallsIff(e: RuleEntry)
    ensures Interpret(BuildRuleSpec(e)).Some? <==> ParseQuad(e.ip).Some? && e.port <= 65535
  {
    DecimalRoundTrip(e.port);
    BuiltSpecIsExpected(e);
    SpecFields(e.ip, Decimal(e.port), "user: " + e.email);
  }

  /** No two entries install the same rule. */
  lemma SpecIsInjective(e: RuleEntry, f: RuleEntry)
    requires Interpret(BuildRuleSpec(e)).Some? && Interpret(BuildRuleSpec(e)) == Interpret(BuildRuleSpec(f))
    ensures e == f
  {
    SpecInstallsIff(e);
    SpecInstallsIff(f);
    InstalledFields(e);
    InstalledFields(f);
    ParsedIsCanonical(e.ip);
    ParsedIsCanonical(f.ip);
    assert "user: " + e.email == "user: " + f.email;
    assert e.email == ("user: " + e.email)[6..] == f.email;
  }

  lemma InstalledFields(e: RuleEntry)
    requires ParseQuad(e.ip).Some? && e.port <= 65535
    ensures Interpret(BuildRuleSpec(e)) == Some(Accept(ParseQuad(e.ip).value, e.port, "user: " + e.email))
  {
    DecimalRoundTrip(e.port);
    BuiltSpecIsExpected(e);
    SpecInterprets(e.ip, Decimal(e.port), "user: " + e.email);
  }

  lemma {:induction false} FindPortSkips(front: string, s: string)
    requires 'd' !in front
    requires |s| >= 5 && s[..4] == "dpt:" && IsDigit(s[4])
    ensures FindPort(front + s) == Some(DigitRun(s[4..]))
  {
    if front == [] {
      assert front + s == s;
    } else {
      var t := front + s;
      assert t[1..] == front[1..] + s;
      assert t[..4] != "dpt:" by {
        assert t[..4][0] == front[0] != 'd';
      }
      FindPortSkips(front[1..], s);
    }
  }

  lemma {:induction false} FindEmailSkips(front: string, s: string)
    requires '/' !in front
    ensures FindEmail(front + s) == FindEmail(s)
  {
    if front == [] {
      assert front + s == s;
    } else {
      var t := front + s;
      assert t[1..] == front[1..] + s;
      assert !EmailHere(t) by {
        if |t| > 12 {
          assert t[..9][0] == front[0] != '/';
        }
      }
      FindEmailSkips(front[1..], s);
    }
  }

  lemma {:induction false} FindEmailIsShort(s: string)
    ensures FindEmail(s).Some? ==> |s| > 12 && |FindEmail(s).value| <= |s| - 12
  {
    if s == [] || EmailHere(s) {
    } else {
      FindEmailIsShort(s[1..]);
    }
  }

  /** The port of a listed rule is read back whatever the comment holds. */
  lemma ListedPortReadsBack(k: KernelRule)
    requires k.Accept? && k.dport < 65536
    ensures FindPort(ListedOptions(k)) == Some(Decimal(k.dport))
  {
    var tail := " /* " + k.comment + " */";
    var s := "dpt:" + (Decimal(k.dport) + tail);
    assert ListedOptions(k) == "state NEW tcp " + s;
    DecimalRoundTrip(k.dport);
    assert s[..4] == "dpt:" && s[4..] == Decimal(k.dport) + tail;
    assert s[4] == Decimal(k.dport)[0];
    FindPortSkips("state NEW tcp ", s);
    DigitRunStops(Decimal(k.dport), tail);
  }

  function CommentText(email: string): string {
    "/* user: " + email + " */"
  }

  lemma SearchStartsAtComment(k: KernelRule, email: string)
    requires k.Accept? && k.comment == "user: " + email
    ensures FindEmail(ListedOptions(k)) == FindEmail(CommentText(email))
  {
    var front := "state NEW tcp dpt:" + Decimal(k.dport) + " ";
    DecimalRoundTrip(k.dport);
    assert ListedOptions(k) == front + CommentText(email);
    FindEmailSkips(front, CommentText(email));
  }

  /** The email of a listed rule is read back exactly when it is non-empty and on one line. */
  lemma ListedEmailReadsBack(k: KernelRule, email: string)
    requires k.Accept? && k.comment == "user: " + email
    ensures FindEmail(ListedOptions(k)) == Some(email) <==> GoodEmail(email)
  {
    var s := CommentText(email);
    SearchStartsAtComment(k, email);
    assert s[..9] == "/* user: " && s[|s| - 3..] == " */" && s[9..|s| - 3] == email;
    if !GoodEmail(email) {
      assert !EmailHere(s);
      FindEmailIsShort(s[1..]);
    }
  }

  /** Round trip: the arguments built for an entry with an IPv4 address and a uint16 port install that
      entry's rule, and the rule's listing parses back to the same entry exactly when its email is
      non-empty and free of newlines. */
  lemma RuleRoundTrip(q: Address, port: nat, email: string)
    requires port < 65536
    ensures var e, k := RuleEntry(Show(q), port, email), Accept(q, port, "user: " + email);
            Interpret(BuildRuleSpec(e)) == Some(k) && (ReadRule(k) == Some(e) <==> GoodEmail(email))
  {
    var e, k := RuleEntry(Show(q), port, email), Accept(q, port, "user: " + email);
    DecimalRoundTrip(port);
    QuadRoundTrip(q);
    SpecInterprets(e.ip, Decimal(port), "user: " + email);
    BuiltSpecIsExpected(e);
    ListedPortReadsBack(k);
    ListedEmailReadsBack(k, email);
  }

  /** A comment marker with one line of text behind it. */
  predicate Marked(s: string) {
    |s| > 9 && s[..9] == "/* user: " && '\n' !in s[9..]
  }

  /** The rest of the email after its leftmost marker with one line of text behind it. */
  function Hidden(email: string): (h: Option<string>)
    ensures h.Some? ==> |h.value| < |email|
  {
    if email == "" then None
    else if Marked(email) then Some(email[9..])
    else Hidden(email[1..])
  }

  lemma HiddenSkips(ch: char, s: string)
    requires ch != '/'
    ensures Hidden([ch] + s) == Hidden(s)
  {
    var t := [ch] + s;
    assert t[1..] == s;
    assert |t| > 9 ==> t[..9][0] == ch && "/* user: "[0] == '/';
  }

  /** Both happen: nothing hides in the empty email, and this one hides another. */
  lemma HiddenExamples()
    ensures !GoodEmail("") && Hidden("").None?
    ensures var email := ['a'] + (['\n'] + ("/* user: " + "b")); !GoodEmail(email) && Hidden(email) == Some("b")
  {
    var marked := "/* user: " + "b";
    assert marked[..9] == "/* user: " && marked[9..] == "b";
    HiddenSkips('\n', marked);
    HiddenSkips('a', ['\n'] + marked);
    assert (['a'] + (['\n'] + marked))[1] == '\n';
  }

  lemma {:induction false} TailHides(email: string)
    ensures FindEmail(email + " */") == Hidden(email)
  {
    var s := email + " */";
    assert s[|s| - 3..] == " */" && s[..|s| - 3] == email;
    if email == "" {
      FindEmailIsShort(s);
    } else {
      assert s[1..] == email[1..] + " */";
      assert |email| > 9 ==> s[..9] == email[..9] && s[9..|s| - 3] == email[9..];
      TailHides(email[1..]);
    }
  }

  /** A rule installed with a bad email never reads as its entry: it cannot be read, or it reads as
      the entry whose email hides in it. */
  lemma BadEmailReads(q: Address, port: nat, email: string)
    requires port < 65536 && !GoodEmail(email)
    ensures ReadRule(Accept(q, port, "user: " + email)) ==
            if Hidden(email).Some? then Some(RuleEntry(Show(q), port, Hidden(email).value)) else None
    ensures Hidden(email).Some? ==> GoodEmail(Hidden(email).value) && Hidden(email).value != email
  {
    var k := Accept(q, port, "user: " + email);
    DecimalRoundTrip(port);
    ListedPortReadsBack(k);
    ListedEmailHides(k, email);
    FoundEmailIsGood(ListedOptions(k));
  }

  lemma ListedEmailHides(k: KernelRule, email: string)
    requires k.Accept? && k.comment == "user: " + email && !GoodEmail(email)
    ensures FindEmail(ListedOptions(k)) == Hidden(email)
  {
    SearchStartsAtComment(k, email);
    BadCommentIsSkipped(email);
    TailHides(email);
  }

  lemma BadCommentIsSkipped(email: string)
    requires !GoodEmail(email)
    ensures FindEmail(CommentText(email)) == FindEmail(email + " */")
  {
    var tail := email + " */";
    CommentShape(email);
    BadCommentIsNoEmail(email);
    FindEmailStep('/', "* user: " + tail);
    FindEmailSkips("* user: ", tail);
  }

  lemma CommentShape(email: string)
    ensures CommentText(email) == ['/'] + ("* user: " + (email + " */"))
  {
    assert "/* user: " == ['/'] + "* user: ";
  }

  lemma BadCommentIsNoEmail(email: string)
    requires !GoodEmail(email)
    ensures !EmailHere(CommentText(email))
  {
    var s := CommentText(email);
    assert s[9..|s| - 3] == email;
  }

  lemma FindEmailStep(ch: char, s: string)
    requires !EmailHere([ch] + s)
    ensures FindEmail([ch] + s) == FindEmail(s)
  {
    assert ([ch] + s)[1..] == s;
  }

  /** Reading goes by the listed text alone: a rule of somebody else that lists as one of ours reads as it. */
  lemma TextDecides(k: KernelRule, q: Address, options: string)
    requires k.source == q && options == ListedOptions(k)
    ensures ReadRule(Foreign(q, options)) == ReadRule(k)
  {
  }

  lemma {:induction false} FoundEmailIsGood(s: string)
    ensures FindEmail(s).Some? ==> GoodEmail(FindEmail(s).value)
  {
    if s == [] || EmailHere(s) {
    } else {
      FoundEmailIsGood(s[1..]);
    }
  }

  /** Whatever is read from the chain, even from a rule not of our making, can be written to it. */
  lemma ReadIsRepresentable(k: KernelRule)
    ensures ReadRule(k).Some? ==> Representable(ReadRule(k).value)
  {
    QuadRoundTrip(k.source);
    FoundEmailIsGood(ListedOptions(k));
  }
}
