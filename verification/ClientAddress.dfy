/** Which address a request is taken to come from: the last element of X-Forwarded-For that is an
    address outside every trusted network, else the host of the connection's remote address. */
module ClientAddress {
  import opened Options

  /** An address as its family's width and its value. */
  datatype IP = IP(bits: nat, value: nat)

  /** A CIDR block: section 3.1 of RFC 4632. `prefix` leading bits of `network` are fixed. */
  datatype Cidr = Cidr(network: IP, prefix: nat)

  function Pow2(n: nat): (p: nat)
    ensures p > 0
  {
    if n == 0 then 1 else 2 * Pow2(n - 1)
  }

  /** IPNet.Contains: same family, and equal in the leading `prefix` bits. */
  predicate InBlock(block: Cidr, ip: IP) {
    && ip.bits == block.network.bits && block.prefix <= ip.bits
    && ip.value / Size(block) == block.network.value / Size(block)
  }

  /** The number of addresses in the block. */
  function Size(block: Cidr): (n: nat)
    requires block.prefix <= block.network.bits
    ensures n > 0
  {
    Pow2(block.network.bits - block.prefix)
  }

  /** `value` shifted right by `n` bits. */
  function Shifted(value: nat, n: nat): nat {
    if n == 0 then value else Shifted(value / 2, n - 1)
  }

  lemma {:induction false} ShiftDivides(value: nat, n: nat)
    ensures value / Pow2(n) == Shifted(value, n)
  {
    if n == 0 {
    } else {
      ShiftDivides(value / 2, n - 1);
      HalveThenDivide(value, Pow2(n - 1));
    }
  }

  lemma HalveThenDivide(x: nat, p: nat)
    requires p > 0
    ensures x / 2 / p == x / (2 * p)
  {
    var q, r := x / 2 / p, x / 2 % p;
    QuotientBounds(x / 2, p);
    assert x == 2 * (q * p) + 2 * r + x % 2;
    DoubleMultiple(q, p);
    QuotientIs(x, 2 * p, q, 2 * r + x % 2);
  }

  lemma DoubleMultiple(q: nat, p: nat)
    ensures q * (2 * p) == 2 * (q * p)
  {
  }

  lemma QuotientIs(x: nat, n: nat, q: nat, r: nat)
    requires r < n && x == q * n + r
    ensures x / n == q
  {
    QuotientBounds(x, n);
    if x / n < q {
      MultiplesGrow(x / n, q, n);
    } else if q < x / n {
      MultiplesGrow(q, x / n, n);
    }
  }

  /** An address is in a block exactly if it is of the same family and shares its leading bits. */
  lemma BlockIsPrefix(block: Cidr, ip: IP)
    requires block.prefix <= block.network.bits
    ensures InBlock(block, ip) <==>
            && ip.bits == block.network.bits
            && Shifted(ip.value, ip.bits - block.prefix) == Shifted(block.network.value, ip.bits - block.prefix)
  {
    if ip.bits == block.network.bits {
      ShiftDivides(ip.value, ip.bits - block.prefix);
      ShiftDivides(block.network.value, ip.bits - block.prefix);
    }
  }

  /** Host routes, and the sizes of /24 and /8 blocks of IPv4. */
  lemma BlockSizes(network: IP)
    ensures Size(Cidr(network, network.bits)) == 1
    ensures network.bits == 32 ==> Size(Cidr(network, 24)) == 256 && Size(Cidr(network, 8)) == 16777216
  {
    assert Pow2(8) == 2 * Pow2(7) && Pow2(7) == 2 * Pow2(6) && Pow2(6) == 2 * Pow2(5) && Pow2(5) == 2 * Pow2(4);
    assert Pow2(4) == 2 * Pow2(3) && Pow2(3) == 2 * Pow2(2) && Pow2(2) == 2 * Pow2(1) && Pow2(1) == 2 * Pow2(0);
    PowerSum(8, 8);
    PowerSum(16, 8);
  }

  lemma {:induction false} PowerSum(m: nat, n: nat)
    ensures Pow2(m + n) == Pow2(m) * Pow2(n)
  {
    if n == 0 {
    } else {
      PowerSum(m, n - 1);
      DoubleMultiple(Pow2(m), Pow2(n - 1));
    }
  }

  /** A block is the aligned range of Size addresses around its network address. */
  lemma BlockIsRange(block: Cidr, ip: IP)
    requires ip.bits == block.network.bits && block.prefix <= ip.bits
    ensures var base := block.network.value - block.network.value % Size(block);
            InBlock(block, ip) <==> base <= ip.value < base + Size(block)
  {
    QuotientRange(ip.value, block.network.value, Size(block));
  }

  lemma QuotientRange(x: nat, y: nat, n: nat)
    requires n > 0
    ensures x / n == y / n <==> y - y % n <= x < y - y % n + n
  {
    MultiplesOrdered(x, y, n);
    MultiplesOrdered(y, x, n);
    RangeOfMultiples(x, x - x % n, y, y - y % n, n, x / n == y / n);
  }

  /** The multiples of `n` below two numbers are ordered as their quotients are. */
  lemma MultiplesOrdered(x: nat, y: nat, n: nat)
    requires n > 0
    ensures 0 <= x % n < n
    ensures x / n == y / n ==> x - x % n == y - y % n
    ensures x / n < y / n ==> x - x % n + n <= y - y % n
  {
    QuotientBounds(x, n);
    QuotientBounds(y, n);
    if x / n < y / n {
      MultiplesGrow(x / n, y / n, n);
    }
  }

  lemma QuotientBounds(x: nat, n: nat)
    requires n > 0
    ensures x / n * n == x - x % n && 0 <= x % n < n
  {
  }

  lemma {:induction false} MultiplesGrow(p: nat, q: nat, n: nat)
    requires p < q
    ensures p * n + n <= q * n
  {
    OneMoreMultiple(q - 1, n);
    if p == q - 1 {
    } else {
      MultiplesGrow(p, q - 1, n);
    }
  }

  lemma OneMoreMultiple(p: nat, n: nat)
    ensures (p + 1) * n == p * n + n
  {
  }

  /** `low` and `base` are the multiples of `n` below `x` and `y`. */
  lemma RangeOfMultiples(x: nat, low: int, y: nat, base: int, n: nat, same: bool)
    requires low <= x < low + n && base <= y < base + n
    requires if same then low == base else low + n <= base || base + n <= low
    ensures same <==> base <= x < base + n
  {
  }

  predicate Trusted(cidrs: seq<Cidr>, ip: IP) {
    exists i :: 0 <= i < |cidrs| && InBlock(cidrs[i], ip)
  }

  /** What net.ParseIP and net.IP.String do, left open: any parser and any printer. */
  datatype Net = Net(parse: string -> Option<IP>, show: IP -> string)

  // ---------- Splitting the header ----------

  /** The regular expression class \s. */
  predicate IsBlank(ch: char) {
    ch == ' ' || ch == '\t' || ch == '\n' || ch == '\r' || ch as int == 12
  }

  /** unicode.IsSpace, which strings.TrimSpace uses. */
  predicate IsSpace(ch: char) {
    || IsBlank(ch) || ch as int == 11 || ch as int == 0x85 || ch as int == 0xA0 || ch as int == 0x1680
    || 0x2000 <= ch as int <= 0x200A || ch as int == 0x2028 || ch as int == 0x2029 || ch as int == 0x202F
    || ch as int == 0x205F || ch as int == 0x3000
  }

  predicate EndsInSpace(s: string) {
    s != "" && IsSpace(s[|s| - 1])
  }

  function DropSpaces(s: string): string {
    if s != [] && IsSpace(s[0]) then DropSpaces(s[1..]) else s
  }

  function DropTrailingSpaces(s: string): string {
    if s != [] && IsSpace(s[|s| - 1]) then DropTrailingSpaces(s[..|s| - 1]) else s
  }

  function TrimSpace(s: string): string {
    DropTrailingSpaces(DropSpaces(s))
  }

  function DropBlanks(s: string): (r: string)
    ensures |r| <= |s|
  {
    if s != [] && IsBlank(s[0]) then DropBlanks(s[1..]) else s
  }

  /** regexp `,\s*` Split(s, -1): the pieces between commas, blanks after a comma swallowed. */
  function Split(s: string): (pieces: seq<string>)
    ensures pieces != []
    decreases |s|
  {
    if s == [] then [""]
    else if s[0] == ',' then [""] + Split(DropBlanks(s[1..]))
    else Prepend(s[0], Split(s[1..]))
  }

  /** A header to which a proxy has appended `tail`. */
  function Joined(front: string, tail: string): string {
    front + [','] + tail
  }

  /** The elements an appended tail contributes. */
  function TailPieces(tail: string): seq<string> {
    Split(DropBlanks(DropTrailingSpaces(tail)))
  }

  /** One more character in front of the first piece. */
  function Prepend(ch: char, pieces: seq<string>): (r: seq<string>)
    requires pieces != []
    ensures r != []
  {
    [[ch] + pieces[0]] + pieces[1..]
  }

  lemma PrependDistributes(ch: char, x: seq<string>, y: seq<string>)
    requires x != []
    ensures Prepend(ch, x + y) == Prepend(ch, x) + y
  {
  }

  /** The split distributes over headers joined with a comma. */
  lemma {:induction false} SplitJoined(a: string, b: string)
    ensures Split(Joined(a, b)) == Split(a) + Split(DropBlanks(b))
    decreases |a|
  {
    var s := Joined(a, b);
    if a == [] {
      assert s[0] == ',' && s[1..] == b;
    } else {
      assert s[0] == a[0] && s[1..] == Joined(a[1..], b);
      if a[0] == ',' {
        DropBlanksJoined(a[1..], b);
        SplitJoined(DropBlanks(a[1..]), b);
      } else {
        SplitJoined(a[1..], b);
        PrependDistributes(a[0], Split(a[1..]), Split(DropBlanks(b)));
      }
    }
  }

  lemma {:induction false} DropBlanksJoined(a: string, b: string)
    ensures DropBlanks(Joined(a, b)) == Joined(DropBlanks(a), b)
  {
    if a == [] || !IsBlank(a[0]) {
    } else {
      assert Joined(a, b)[1..] == Joined(a[1..], b);
      DropBlanksJoined(a[1..], b);
    }
  }

  lemma {:induction false} DropSpacesJoined(a: string, b: string)
    ensures DropSpaces(Joined(a, b)) == Joined(DropSpaces(a), b)
  {
    if a == [] || !IsSpace(a[0]) {
    } else {
      assert Joined(a, b)[1..] == Joined(a[1..], b);
      DropSpacesJoined(a[1..], b);
    }
  }

  lemma {:induction false} DropTrailingSpacesJoined(a: string, b: string)
    ensures DropTrailingSpaces(Joined(a, b)) == Joined(a, DropTrailingSpaces(b))
  {
    var s := Joined(a, b);
    if b == [] {
      assert s[|s| - 1] == ',';
    } else {
      assert s[|s| - 1] == b[|b| - 1];
      if IsSpace(b[|b| - 1]) {
        assert s[..|s| - 1] == Joined(a, b[..|b| - 1]);
        DropTrailingSpacesJoined(a, b[..|b| - 1]);
      }
    }
  }

  /** The pieces of a header extended by `tail`: those of the old header, then those of the tail. */
  lemma ExtendedHeaderPieces(front: string, tail: string)
    ensures TrimSpace(Joined(front, tail)) != ""
    ensures Split(TrimSpace(Joined(front, tail))) == Split(DropSpaces(front)) + TailPieces(tail)
  {
    DropSpacesJoined(front, tail);
    DropTrailingSpacesJoined(DropSpaces(front), tail);
    SplitJoined(DropSpaces(front), DropTrailingSpaces(tail));
  }

  /** Spaces, tabs, line ends and form feeds. */
  predicate Gap(w: string) {
    forall i :: 0 <= i < |w| ==> w[i] in {' ', '\t', '\n', '\r', '\U{000C}'}
  }

  /** What can start a header element once the gap before it is gone. */
  predicate StartsPlain(s: string) {
    s == "" || s[0] !in {' ', '\t', '\n', '\r', '\U{000C}'}
  }

  lemma {:induction false} GapIsDropped(w: string, b: string)
    requires Gap(w) && StartsPlain(b)
    ensures DropBlanks(w + b) == b
  {
    if w == "" {
      assert w + b == b;
    } else {
      assert (w + b)[0] == w[0] && (w + b)[1..] == w[1..] + b;
      GapIsDropped(w[1..], b);
    }
  }

  /** A gap after a comma makes no difference. */
  lemma GapAfterComma(a: string, w: string, b: string)
    requires Gap(w) && StartsPlain(b)
    ensures Split(Joined(a, w + b)) == Split(Joined(a, b))
  {
    SplitJoined(a, w + b);
    SplitJoined(a, b);
    GapIsDropped(w, b);
    assert "" + b == b;
    GapIsDropped("", b);
  }

  lemma {:induction false} DropBlanksStartsPlain(s: string)
    ensures StartsPlain(DropBlanks(s))
  {
    if s == "" || !IsBlank(s[0]) {
    } else {
      DropBlanksStartsPlain(s[1..]);
    }
  }

  lemma {:induction false} FirstPieceStart(s: string)
    ensures Split(s)[0] == "" || Split(s)[0][0] == s[0]
    ensures s != "" && s[0] != ',' ==> Split(s)[0] != ""
  {
  }

  /** No element after the first starts with a gap, and none contains a comma. */
  lemma {:induction false} PiecesStartPlain(s: string, j: nat)
    requires j < |Split(s)|
    ensures ',' !in Split(s)[j] && (j > 0 ==> StartsPlain(Split(s)[j]))
    decreases |s|
  {
    if s == "" {
    } else if s[0] == ',' {
      var rest := DropBlanks(s[1..]);
      if j > 0 {
        PiecesStartPlain(rest, j - 1);
        DropBlanksStartsPlain(s[1..]);
        FirstPieceStart(rest);
      }
    } else {
      PiecesStartPlain(s[1..], j);
    }
  }

  /** A header listing `es`, with `gaps[k]` between the k-th comma and the element after it. */
  function Header(es: seq<string>, gaps: seq<string>): string
    requires es != [] && |gaps| == |es| - 1
  {
    if |es| == 1 then es[0]
    else Joined(Header(es[..|es| - 1], gaps[..|gaps| - 1]), gaps[|gaps| - 1] + es[|es| - 1])
  }

  /** The elements written are the elements read, whatever the gaps. */
  lemma {:induction false} HeaderReadsBack(es: seq<string>, gaps: seq<string>)
    requires es != [] && |gaps| == |es| - 1 && forall k :: 0 <= k < |gaps| ==> Gap(gaps[k])
    requires forall k :: 0 <= k < |es| ==> ',' !in es[k] && (k > 0 ==> StartsPlain(es[k]))
    ensures Split(Header(es, gaps)) == es
  {
    if |es| == 1 {
      SplitPlain(es[0]);
    } else {
      var init, last := es[..|es| - 1], es[|es| - 1];
      HeaderReadsBack(init, gaps[..|gaps| - 1]);
      SplitJoined(Header(init, gaps[..|gaps| - 1]), gaps[|gaps| - 1] + last);
      GapIsDropped(gaps[|gaps| - 1], last);
      SplitPlain(last);
    }
  }

  /** White space as Unicode has it, which strings.TrimSpace removes. */
  predicate White(ch: char) {
    || ch in {' ', '\t', '\n', '\r', '\U{000B}', '\U{000C}', '\U{0085}', '\U{00A0}', '\U{1680}'}
    || '\U{2000}' <= ch <= '\U{200A}'
    || ch in {'\U{2028}', '\U{2029}', '\U{202F}', '\U{205F}', '\U{3000}'}
  }

  /** Trimming removes the white space at both ends, and nothing else. */
  lemma {:induction false} TrimIsExact(v: string, s: string, w: string)
    requires (forall i :: 0 <= i < |v| ==> White(v[i])) && (forall i :: 0 <= i < |w| ==> White(w[i]))
    requires s != "" ==> !White(s[0]) && !White(s[|s| - 1])
    ensures TrimSpace(v + s + w) == s
    decreases |v| + |w|
  {
    var t := v + s + w;
    if v != "" {
      assert t[0] == v[0] && t[1..] == v[1..] + s + w;
      TrimIsExact(v[1..], s, w);
    } else if s == "" {
      AllSpacesDropped(w);
      assert t == w;
    } else {
      assert t == s + w && t[0] == s[0];
      TrailingDropped(s, w);
    }
  }

  lemma {:induction false} AllSpacesDropped(w: string)
    requires forall i :: 0 <= i < |w| ==> White(w[i])
    ensures DropSpaces(w) == ""
  {
    if w == "" {
    } else {
      AllSpacesDropped(w[1..]);
    }
  }

  lemma {:induction false} TrailingDropped(s: string, w: string)
    requires s != "" && !White(s[|s| - 1]) && forall i :: 0 <= i < |w| ==> White(w[i])
    ensures DropTrailingSpaces(s + w) == s
  {
    var t := s + w;
    if w == "" {
      assert t == s;
    } else {
      assert t[|t| - 1] == w[|w| - 1] && t[..|t| - 1] == s + w[..|w| - 1];
      TrailingDropped(s, w[..|w| - 1]);
    }
  }

  // ---------- Choosing the address ----------

  /** The element names an address outside every trusted network. */
  predicate Counts(net: Net, cidrs: seq<Cidr>, p: string) {
    net.parse(p).Some? && !Trusted(cidrs, net.parse(p).value)
  }

  /** The addresses of the elements that count, in order. */
  function Untrusted(net: Net, cidrs: seq<Cidr>, pieces: seq<string>): seq<IP> {
    if pieces == [] then []
    else
      var init, p := Untrusted(net, cidrs, pieces[..|pieces| - 1]), pieces[|pieces| - 1];
      if Counts(net, cidrs, p) then init + [net.parse(p).value] else init
  }

  datatype Answer = Address(ip: string) | UnknownRemote

  /** `r.RemoteAddr` split at colons: exactly one colon, and the part before it. */
  function RemoteHost(remote: string): Answer {
    var i := Colon(remote);
    if i == |remote| || Colon(remote[i + 1..]) != |remote| - i - 1 then UnknownRemote
    else Address(remote[..i])
  }

  /** The position of the first colon, or the length. */
  function Colon(s: string): (i: nat)
    ensures i <= |s| && ':' !in s[..i] && (i < |s| ==> s[i] == ':')
  {
    if s == [] || s[0] == ':' then 0 else 1 + Colon(s[1..])
  }

  /** `host` is what stands before the first colon of `remote`. */
  predicate IsHost(host: string, remote: string) {
    |host| < |remote| && host == remote[..|host|] && remote[|host|] == ':' && ':' !in host
  }

  /** A remote address has a host if and only if it has exactly one colon, so never if it is IPv6; and
      the host is what stands before that colon. */
  lemma RemoteHostIff(remote: string)
    ensures RemoteHost(remote).Address? <==> multiset(remote)[':'] == 1
    ensures RemoteHost(remote).Address? ==> IsHost(RemoteHost(remote).ip, remote)
  {
    var i := Colon(remote);
    ColonCounts(remote);
    if i < |remote| {
      ColonCounts(remote[i + 1..]);
    }
  }

  /** The first colon leaves one colon fewer behind it. */
  lemma ColonCounts(s: string)
    ensures var i := Colon(s);
            multiset(s)[':'] == if i == |s| then 0 else 1 + multiset(s[i + 1..])[':']
  {
    var i := Colon(s);
    assert ':' !in multiset(s[..i]);
    if i < |s| {
      assert s == s[..i] + [':'] + s[i + 1..];
    } else {
      assert s == s[..i];
    }
  }

  /** A remote address of the form host:port gives its host, and one without a colon is an error. */
  lemma RemoteHostExact(host: string, port: string)
    requires ':' !in host && ':' !in port
    ensures RemoteHost(host + ":" + port) == Address(host)
    ensures RemoteHost(host) == UnknownRemote
  {
    var r := host + ":" + port;
    var i := Colon(r);
    assert r[|host|] == ':' && forall j :: 0 <= j < |host| ==> r[j] == host[j];
    forall j | 0 <= j < i ensures r[j] != ':' {
      assert r[j] == r[..i][j];
    }
    assert r[i + 1..] == port && r[..i] == host;
    assert Colon(port) == |port| && Colon(host) == |host|;
  }

  /** Element `i` is the last that counts. */
  ghost predicate LastCounting(net: Net, cidrs: seq<Cidr>, pieces: seq<string>, i: nat) {
    && i < |pieces| && Counts(net, cidrs, pieces[i])
    && (forall j :: i < j < |pieces| ==> !Counts(net, cidrs, pieces[j]))
  }

  ghost predicate NoneCounts(net: Net, cidrs: seq<Cidr>, pieces: seq<string>) {
    forall j :: 0 <= j < |pieces| ==> !Counts(net, cidrs, pieces[j])
  }

  method IsTrusted(cidrs: seq<Cidr>, ip: IP) returns (trusted: bool)
    ensures trusted == Trusted(cidrs, ip)
  {
    trusted := false;
    for i := 0 to |cidrs|
      invariant trusted <==> exists j :: 0 <= j < i && InBlock(cidrs[j], ip)
    {
      if InBlock(cidrs[i], ip) {
        trusted := true;
      }
    }
  }

  /** extractRequestIPAddress. */
  method ExtractRequestIPAddress(net: Net, header: string, remote: string, cidrs: seq<Cidr>, useHeader: bool)
    returns (answer: Answer)
    ensures answer == ClientOf(net, header, remote, cidrs, useHeader)
  {
    var xff := TrimSpace(header);
    var ipAddress := "";
    if useHeader && xff != "" {
      var proxies := Split(xff);
      var untrustedProxies: seq<IP> := [];
      for i := 0 to |proxies|
        invariant untrustedProxies == Untrusted(net, cidrs, proxies[..i])
      {
        assert proxies[..i + 1][..i] == proxies[..i];
        var ip := net.parse(proxies[i]);
        if ip.Some? {
          var trusted := IsTrusted(cidrs, ip.value);
          if !trusted {
            untrustedProxies := untrustedProxies + [ip.value];
          }
        }
      }
      assert proxies[..|proxies|] == proxies;
      if |untrustedProxies| != 0 {
        ipAddress := net.show(untrustedProxies[|untrustedProxies| - 1]);
      }
    }
    if ipAddress == "" {
      return RemoteHost(remote);
    }
    return Address(ipAddress);
  }

  /** The last counting element's address as text, or the empty string. */
  function FromPieces(net: Net, cidrs: seq<Cidr>, pieces: seq<string>): string {
    var u := Untrusted(net, cidrs, pieces);
    if u == [] then "" else net.show(u[|u| - 1])
  }

  /** The elements of a header; a blank one has none. */
  function HeaderPieces(header: string): seq<string> {
    if TrimSpace(header) == "" then [] else Split(TrimSpace(header))
  }

  function Chosen(net: Net, cidrs: seq<Cidr>, pieces: seq<string>, remote: string): Answer {
    var ip := FromPieces(net, cidrs, pieces);
    if ip == "" then RemoteHost(remote) else Address(ip)
  }

  function ClientOf(net: Net, header: string, remote: string, cidrs: seq<Cidr>, useHeader: bool): Answer {
    Chosen(net, cidrs, if useHeader then HeaderPieces(header) else [], remote)
  }

  lemma {:induction false} UntrustedOfNone(net: Net, cidrs: seq<Cidr>, pieces: seq<string>)
    ensures NoneCounts(net, cidrs, pieces) <==> Untrusted(net, cidrs, pieces) == []
  {
    if pieces == [] {
    } else {
      var init := pieces[..|pieces| - 1];
      UntrustedOfNone(net, cidrs, init);
      assert forall j :: 0 <= j < |init| ==> init[j] == pieces[j];
    }
  }

  lemma {:induction false} UntrustedDistributes(net: Net, cidrs: seq<Cidr>, x: seq<string>, y: seq<string>)
    ensures Untrusted(net, cidrs, x + y) == Untrusted(net, cidrs, x) + Untrusted(net, cidrs, y)
  {
    if y == [] {
      assert x + y == x;
    } else {
      var init, p := y[..|y| - 1], y[|y| - 1];
      assert (x + y)[..|x + y| - 1] == x + init && (x + y)[|x + y| - 1] == p;
      UntrustedDistributes(net, cidrs, x, init);
    }
  }

  lemma FromPiecesIsLast(net: Net, cidrs: seq<Cidr>, pieces: seq<string>, i: nat)
    requires LastCounting(net, cidrs, pieces, i)
    ensures Untrusted(net, cidrs, pieces) != []
    ensures FromPieces(net, cidrs, pieces) == net.show(net.parse(pieces[i]).value)
  {
    var x, y := pieces[..i + 1], pieces[i + 1..];
    assert pieces == x + y;
    UntrustedDistributes(net, cidrs, x, y);
    UntrustedOfNone(net, cidrs, y);
    assert x[..|x| - 1] == pieces[..i] && x[|x| - 1] == pieces[i];
  }

  /** The client is the last header element that is an address outside every trusted network. */
  lemma ClientIsLastUntrusted(net: Net, header: string, remote: string, cidrs: seq<Cidr>, i: nat)
    requires forall ip :: net.show(ip) != ""
    requires TrimSpace(header) != "" && LastCounting(net, cidrs, Split(TrimSpace(header)), i)
    ensures ClientOf(net, header, remote, cidrs, true) ==
            Address(net.show(net.parse(Split(TrimSpace(header))[i]).value))
  {
    FromPiecesIsLast(net, cidrs, Split(TrimSpace(header)), i);
  }

  /** End to end: of a header that lists `es` with gaps and white space around it, the client is the last
      element that is an address outside every trusted network. */
  lemma ClientOfList(net: Net, es: seq<string>, gaps: seq<string>, v: string, w: string, remote: string,
                     cidrs: seq<Cidr>, i: nat)
    requires forall ip :: net.show(ip) != ""
    requires es != [] && |gaps| == |es| - 1 && forall k :: 0 <= k < |gaps| ==> Gap(gaps[k])
    requires forall k :: 0 <= k < |es| ==> ',' !in es[k] && (k > 0 ==> StartsPlain(es[k]))
    requires (forall k :: 0 <= k < |v| ==> White(v[k])) && (forall k :: 0 <= k < |w| ==> White(w[k]))
    requires var h := Header(es, gaps); h != "" && !White(h[0]) && !White(h[|h| - 1])
    requires LastCounting(net, cidrs, es, i)
    ensures ClientOf(net, v + Header(es, gaps) + w, remote, cidrs, true) == Address(net.show(net.parse(es[i]).value))
  {
    HeaderReadsBack(es, gaps);
    TrimIsExact(v, Header(es, gaps), w);
    ClientIsLastUntrusted(net, v + Header(es, gaps) + w, remote, cidrs, i);
  }

  /** Without such an element, with a blank header, or not using it, it is the host of the remote address. */
  lemma ClientElseRemote(net: Net, header: string, remote: string, cidrs: seq<Cidr>, useHeader: bool)
    requires !useHeader || TrimSpace(header) == "" || NoneCounts(net, cidrs, Split(TrimSpace(header)))
    ensures ClientOf(net, header, remote, cidrs, useHeader) == RemoteHost(remote)
  {
    UntrustedOfNone(net, cidrs, Split(TrimSpace(header)));
  }

  /** Nothing before a counting element matters: what the client itself puts in front of what the
      proxies appended cannot change the answer. */
  lemma FrontCannotAffect(net: Net, front: string, front': string, tail: string, remote: string,
                          cidrs: seq<Cidr>, useHeader: bool)
    requires !NoneCounts(net, cidrs, TailPieces(tail))
    ensures ClientOf(net, Joined(front, tail), remote, cidrs, useHeader) ==
            ClientOf(net, Joined(front', tail), remote, cidrs, useHeader)
  {
    TailDecides(net, front, tail, remote, cidrs);
    TailDecides(net, front', tail, remote, cidrs);
  }

  lemma TailDecides(net: Net, front: string, tail: string, remote: string, cidrs: seq<Cidr>)
    requires !NoneCounts(net, cidrs, TailPieces(tail))
    ensures Chosen(net, cidrs, HeaderPieces(Joined(front, tail)), remote) ==
            Chosen(net, cidrs, TailPieces(tail), remote)
  {
    ExtendedHeaderPieces(front, tail);
    UntrustedDistributes(net, cidrs, Split(DropSpaces(front)), TailPieces(tail));
    UntrustedOfNone(net, cidrs, TailPieces(tail));
  }

  /** Appending any number of trusted or unparsable elements answers as the old header does with only
      its front trimmed: the same as the old header, if no space trails it. */
  lemma AppendedTrustedIgnored(net: Net, front: string, tail: string, remote: string,
                               cidrs: seq<Cidr>, useHeader: bool)
    requires net.parse("").None? && NoneCounts(net, cidrs, TailPieces(tail))
    ensures useHeader ==> ClientOf(net, Joined(front, tail), remote, cidrs, useHeader) ==
                          Chosen(net, cidrs, Split(DropSpaces(front)), remote)
    ensures !useHeader || !EndsInSpace(front) ==>
              ClientOf(net, Joined(front, tail), remote, cidrs, useHeader) ==
              ClientOf(net, front, remote, cidrs, useHeader)
  {
    ExtendedHeaderPieces(front, tail);
    UntrustedDistributes(net, cidrs, Split(DropSpaces(front)), TailPieces(tail));
    UntrustedOfNone(net, cidrs, TailPieces(tail));
    if !EndsInSpace(front) {
      TrimOfTrimmed(front);
    }
    if TrimSpace(front) == "" {
      assert Split("") == [""];
      UntrustedOfNone(net, cidrs, Split(""));
    }
  }

  lemma {:induction false} TrimOfTrimmed(s: string)
    requires DropTrailingSpaces(s) == s
    ensures TrimSpace(s) == DropSpaces(s)
  {
    if s == [] || !IsSpace(s[0]) {
    } else {
      KeptTail(s);
      TrimOfTrimmed(s[1..]);
    }
  }

  lemma KeptTail(s: string)
    requires s != [] && IsSpace(s[0]) && DropTrailingSpaces(s) == s
    ensures |s| > 1 && DropTrailingSpaces(s[1..]) == s[1..]
  {
    DropTrailingShrinks(s);
    assert s[1..] != [] ==> s[1..][|s[1..]| - 1] == s[|s| - 1];
  }

  lemma {:induction false} DropTrailingShrinks(s: string)
    ensures |DropTrailingSpaces(s)| <= |s|
    ensures s != [] && IsSpace(s[|s| - 1]) ==> |DropTrailingSpaces(s)| < |s|
  {
    if s == [] || !IsSpace(s[|s| - 1]) {
    } else {
      DropTrailingShrinks(s[..|s| - 1]);
    }
  }

  lemma TrimDropsLastBlank(s: string)
    requires |s| > 1 && !IsSpace(s[0]) && s[|s| - 1] == ' ' && !IsSpace(s[|s| - 2])
    ensures TrimSpace(s) == s[..|s| - 1]
  {
    var kept := s[..|s| - 1];
    assert kept[|kept| - 1] == s[|s| - 2];
    assert DropTrailingSpaces(kept) == kept;
    assert DropSpaces(s) == s && IsSpace(' ');
    assert DropTrailingSpaces(s) == DropTrailingSpaces(kept);
  }

  /** The trim only reaches the ends of the header: after an appended element, a blank that trailed
      the old header sticks to its last element `p` and can make it unparsable. */
  lemma TrailingBlankMatters(net: Net, p: string, remote: string, cidrs: seq<Cidr>)
    requires p != "" && !IsSpace(p[0]) && !IsSpace(p[|p| - 1]) && ',' !in p
    requires Counts(net, cidrs, p) && net.parse(p + " ").None? && net.parse("-").None?
    requires forall ip :: net.show(ip) != ""
    ensures ClientOf(net, p + " ", remote, cidrs, true) == Address(net.show(net.parse(p).value))
    ensures ClientOf(net, Joined(p + " ", "-"), remote, cidrs, true) == RemoteHost(remote)
  {
    var q := p + " ";
    assert q[..|q| - 1] == p;
    TrimDropsLastBlank(q);
    SplitPlain(p);
    assert LastCounting(net, cidrs, Split(p), 0);
    ClientIsLastUntrusted(net, q, remote, cidrs, 0);
    ExtendedHeaderPieces(q, "-");
    SplitPlain(q);
    SplitPlain("-");
    assert Split(TrimSpace(Joined(q, "-"))) == [q, "-"];
    ClientElseRemote(net, Joined(q, "-"), remote, cidrs, true);
  }

  predicate AllSpaces(s: string) {
    forall i :: 0 <= i < |s| ==> IsSpace(s[i])
  }

  lemma {:induction false} TrailingSpaces(s: string)
    ensures DropTrailingSpaces(s) <= s && AllSpaces(s[|DropTrailingSpaces(s)|..])
    ensures s != "" && !IsSpace(s[0]) ==> DropTrailingSpaces(s) != ""
  {
    if !EndsInSpace(s) {
    } else {
      var init := s[..|s| - 1];
      TrailingSpaces(init);
      assert s[|DropTrailingSpaces(s)|..] == init[|DropTrailingSpaces(s)|..] + [s[|s| - 1]];
    }
  }

  lemma {:induction false} LeadingSpaces(s: string)
    ensures DropSpaces(s) != "" ==> !IsSpace(DropSpaces(s)[0]) && (EndsInSpace(DropSpaces(s)) <==> EndsInSpace(s))
  {
    if s == "" || !IsSpace(s[0]) {
    } else {
      LeadingSpaces(s[1..]);
    }
  }

  lemma {:induction false} DropBlanksAppended(a: string, w: string)
    ensures DropBlanks(a + w) == if DropBlanks(a) == "" then DropBlanks(w) else DropBlanks(a) + w
  {
    if a == "" {
      assert a + w == w;
    } else {
      assert (a + w)[1..] == a[1..] + w;
      DropBlanksAppended(a[1..], w);
    }
  }

  lemma {:induction false} DropBlanksOfSpaces(w: string)
    requires AllSpaces(w)
    ensures AllSpaces(DropBlanks(w))
  {
    if w == "" || !IsBlank(w[0]) {
    } else {
      DropBlanksOfSpaces(w[1..]);
    }
  }

  /** `y` is `x` but for its last element, which ends in a space or is an empty piece after a comma. */
  ghost predicate DiffersLast(x: seq<string>, y: seq<string>) {
    && |x| == |y| > 0 && x[..|x| - 1] == y[..|y| - 1]
    && (EndsInSpace(y[|y| - 1]) || (|y| > 1 && y[|y| - 1] == ""))
  }

  lemma PrependDiffersLast(ch: char, x: seq<string>, y: seq<string>)
    requires DiffersLast(x, y)
    ensures DiffersLast(Prepend(ch, x), Prepend(ch, y))
  {
    if |x| > 1 {
      assert x[0] == x[..|x| - 1][0] && y[0] == y[..|y| - 1][0];
      assert Prepend(ch, x)[..|x| - 1] == Prepend(ch, x[..|x| - 1]);
      assert Prepend(ch, y)[..|y| - 1] == Prepend(ch, y[..|y| - 1]);
    }
  }

  lemma EmptyDiffersLast(x: seq<string>, y: seq<string>)
    requires DiffersLast(x, y) || (|x| == 1 && |y| == 1 && y[0] == "")
    ensures DiffersLast([""] + x, [""] + y)
  {
    assert ([""] + x)[..|x|] == [""] + x[..|x| - 1];
    assert ([""] + y)[..|y|] == [""] + y[..|y| - 1];
  }

  /** Text with trailing space splits as without it, but for the last element. */
  lemma {:induction false} SplitTrailing(u: string, w: string)
    requires AllSpaces(w) && w != ""
    ensures DiffersLast(Split(u), Split(u + w))
    decreases |u|
  {
    if u == "" {
      assert u + w == w;
      SplitPlain(w);
    } else {
      var s := u + w;
      assert s[0] == u[0] && s[1..] == u[1..] + w;
      if u[0] == ',' {
        var rest := DropBlanks(u[1..]);
        DropBlanksAppended(u[1..], w);
        if rest == "" {
          DropBlanksOfSpaces(w);
          SplitPlain(DropBlanks(w));
        } else {
          SplitTrailing(rest, w);
        }
        EmptyDiffersLast(Split(rest), Split(DropBlanks(s[1..])));
      } else {
        SplitTrailing(u[1..], w);
        PrependDiffersLast(u[0], Split(u[1..]), Split(s[1..]));
      }
    }
  }

  /** The elements of the header that are still read as they were once something is appended to it. */
  function KeptPieces(header: string): seq<string> {
    var pieces := HeaderPieces(header);
    if pieces != [] && EndsInSpace(header) then pieces[..|pieces| - 1] else pieces
  }

  /** What an extended header reads as: the trim only reaches the ends, so a space that trailed the
      old header now sticks to its last element. */
  lemma KeptByExtension(net: Net, front: string, cidrs: seq<Cidr>)
    requires net.parse("").None? && forall s :: EndsInSpace(s) ==> net.parse(s).None?
    ensures Untrusted(net, cidrs, Split(DropSpaces(front))) == Untrusted(net, cidrs, KeptPieces(front))
  {
    var u, t := DropSpaces(front), TrimSpace(front);
    LeadingSpaces(front);
    TrailingSpaces(u);
    if t == "" {
      assert u == "" && Split(u) == [""];
      UntrustedOfNone(net, cidrs, [""]);
    } else if EndsInSpace(u) {
      DropTrailingShrinks(u);
      SplitTrailing(t, u[|t|..]);
      assert u == t + u[|t|..];
    }
  }

  /** When no text ending in a space parses: appending trusted or unparsable elements answers as the
      header would without its last element, if a space trails it. */
  lemma ExtendedClient(net: Net, front: string, tail: string, remote: string, cidrs: seq<Cidr>)
    requires net.parse("").None? && forall s :: EndsInSpace(s) ==> net.parse(s).None?
    requires NoneCounts(net, cidrs, TailPieces(tail))
    ensures ClientOf(net, Joined(front, tail), remote, cidrs, true) == Chosen(net, cidrs, KeptPieces(front), remote)
  {
    AppendedTrustedIgnored(net, front, tail, remote, cidrs, true);
    KeptByExtension(net, front, cidrs);
  }

  /** The last element decides if it counts, and otherwise might as well not be there. */
  lemma ChosenByLast(net: Net, cidrs: seq<Cidr>, pieces: seq<string>, remote: string)
    requires pieces != [] && forall ip :: net.show(ip) != ""
    ensures var init, last := pieces[..|pieces| - 1], pieces[|pieces| - 1];
            Chosen(net, cidrs, pieces, remote) ==
            if Counts(net, cidrs, last) then Address(net.show(net.parse(last).value))
            else Chosen(net, cidrs, init, remote)
  {
    if Counts(net, cidrs, pieces[|pieces| - 1]) {
      FromPiecesIsLast(net, cidrs, pieces, |pieces| - 1);
    }
  }

  /** So that leaves the answer alone exactly if the header is not used, is blank or has no trailing
      space, or its last element does not count or names what would be the answer without it. */
  lemma AppendedTrustedIgnoredIff(net: Net, front: string, tail: string, remote: string,
                                  cidrs: seq<Cidr>, useHeader: bool)
    requires net.parse("").None? && forall s :: EndsInSpace(s) ==> net.parse(s).None?
    requires forall ip :: net.show(ip) != ""
    requires NoneCounts(net, cidrs, TailPieces(tail))
    ensures ClientOf(net, Joined(front, tail), remote, cidrs, useHeader) ==
            ClientOf(net, front, remote, cidrs, useHeader) <==>
            var pieces := HeaderPieces(front);
            || !useHeader || pieces == [] || !EndsInSpace(front)
            || !Counts(net, cidrs, pieces[|pieces| - 1])
            || Chosen(net, cidrs, KeptPieces(front), remote) == Address(net.show(net.parse(pieces[|pieces| - 1]).value))
  {
    var pieces := HeaderPieces(front);
    if useHeader {
      ExtendedClient(net, front, tail, remote, cidrs);
      if pieces != [] {
        ChosenByLast(net, cidrs, pieces, remote);
      }
    }
  }

  lemma {:induction false} SplitPlain(s: string)
    requires ',' !in s
    ensures Split(s) == [s]
  {
    if s == [] {
    } else {
      SplitPlain(s[1..]);
      assert s == [s[0]] + s[1..] && s[0] != ',';
    }
  }
}
