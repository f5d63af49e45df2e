/** Node URLs (src/uri.cpp): the text form, field equality, and the order that
    every sorted node list and every ordered map of nodes relies on. */
module Urls {

  type Port = p: int | 0 <= p < 0x1_0000

  datatype Url = Url(scheme: string, host: string, port: Port, path: string, query: string) {

    /** `Url{}` and everything else with no host counts as "no node". */
    predicate Empty() {
      host == ""
    }

    function Authority(): string {
      FormatHost(host) + PortText(port)
    }

    function ToString(): string {
      if Empty() then ""
      else scheme + "://" + Authority() + path + QueryText(query)
    }

    /** The URLs on which the text form loses nothing: a scheme without a colon, a
        non-empty host without delimiters or brackets, an absolute path without `?`. */
    ghost predicate WellFormed() {
      && ':' !in scheme
      && host != ""
      && Avoids(host, HOST_DELIMITERS)
      && (path == "" || path[0] == '/')
      && '?' !in path
    }
  }

  const NO_URL := Url("", "", 0, "", "")
  const HOST_DELIMITERS: set<char> := {'/', '?', '[', ']'}

  /** A host that contains a colon is bracketed unless it already starts with a bracket. */
  function FormatHost(host: string): string {
    if ':' in host && host[0] != '[' then "[" + host + "]" else host
  }

  function PortText(port: Port): string {
    if port != 0 then ":" + Decimal(port) else ""
  }

  function QueryText(query: string): string {
    if query != "" then "?" + query else ""
  }

  function Decimal(n: nat): (s: string)
    ensures s != "" && forall c | c in s :: c !in {':', '/', '?'}
  {
    if n < 10 then ["0123456789"[n]] else Decimal(n / 10) + ["0123456789"[n % 10]]
  }

  lemma {:induction false} DecimalIsInjective(a: nat, b: nat)
    requires Decimal(a) == Decimal(b)
    ensures a == b
  {
    var s, t := Decimal(a), Decimal(b);
    assert s[|s| - 1] == "0123456789"[a % 10] && t[|t| - 1] == "0123456789"[b % 10];
    assert a >= 10 <==> |s| > 1;
    assert b >= 10 <==> |t| > 1;
    if a >= 10 {
      assert s[..|s| - 1] == Decimal(a / 10) && t[..|t| - 1] == Decimal(b / 10);
      DecimalIsInjective(a / 10, b / 10);
    }
  }

  // ----- The text form determines the URL -----

  ghost predicate Avoids(run: string, stops: set<char>) {
    forall c | c in run :: c !in stops
  }

  /** `rest` is where a run of characters outside `stops` ends. */
  ghost predicate EndsRun(rest: string, stops: set<char>) {
    rest == "" || rest[0] in stops
  }

  lemma RunIsLongest(a: string, x: string, b: string, y: string, stops: set<char>)
    requires a + x == b + y && Avoids(b, stops) && EndsRun(x, stops)
    ensures |b| <= |a|
  {
    assert forall i | 0 <= i < |b| :: (b + y)[i] == b[i] && b[i] in b;
    assert forall i | 0 <= i < |x| :: (a + x)[|a| + i] == x[i];
    if |a| < |b| {
      assert false;
    }
  }

  lemma SplitIsUnique(a: string, x: string, b: string, y: string, stops: set<char>)
    requires a + x == b + y
    requires Avoids(a, stops) && Avoids(b, stops) && EndsRun(x, stops) && EndsRun(y, stops)
    ensures a == b && x == y
  {
    RunIsLongest(a, x, b, y, stops);
    RunIsLongest(b, y, a, x, stops);
    assert a == (a + x)[..|a|] && b == (b + y)[..|b|];
    assert x == (a + x)[|a|..] && y == (b + y)[|b|..];
  }

  lemma PrefixCancels(pre: string, x: string, y: string)
    requires pre + x == pre + y
    ensures x == y
  {
    assert x == (pre + x)[|pre|..] && y == (pre + y)[|pre|..];
  }

  lemma PathAndQuerySplit(p: string, q: string, p': string, q': string)
    requires '?' !in p && '?' !in p' && p + QueryText(q) == p' + QueryText(q')
    ensures p == p' && q == q'
  {
    SplitIsUnique(p, QueryText(q), p', QueryText(q'), {'?'});
    if q != "" {
      PrefixCancels("?", q, q');
    }
  }

  lemma NumberSplit(a: nat, x: string, b: nat, y: string)
    requires EndsRun(x, {'/', '?'}) && EndsRun(y, {'/', '?'}) && ":" + Decimal(a) + x == ":" + Decimal(b) + y
    ensures a == b && x == y
  {
    var s, t := Decimal(a), Decimal(b);
    assert ":" + s + x == ":" + (s + x) && ":" + t + y == ":" + (t + y);
    PrefixCancels(":", s + x, t + y);
    SplitIsUnique(s, x, t, y, {'/', '?'});
    DecimalIsInjective(a, b);
  }

  lemma PortShape(a: Port, x: string)
    requires EndsRun(x, {'/', '?'})
    ensures a != 0 <==> PortText(a) + x != "" && (PortText(a) + x)[0] == ':'
    ensures a == 0 ==> PortText(a) + x == x
  {
  }

  lemma PortSplit(a: Port, x: string, b: Port, y: string)
    requires EndsRun(x, {'/', '?'}) && EndsRun(y, {'/', '?'}) && PortText(a) + x == PortText(b) + y
    ensures a == b && x == y
  {
    PortShape(a, x);
    PortShape(b, y);
    if a != 0 {
      NumberSplit(a, x, b, y);
    }
  }

  lemma BracketSplit(h: string, x: string, g: string, y: string)
    requires Avoids(h, HOST_DELIMITERS) && Avoids(g, HOST_DELIMITERS) && "[" + h + "]" + x == "[" + g + "]" + y
    ensures h == g && x == y
  {
    var s, t := "]" + x, "]" + y;
    assert "[" + h + "]" + x == "[" + (h + s) && "[" + g + "]" + y == "[" + (g + t);
    PrefixCancels("[", h + s, g + t);
    assert Avoids(h, {']'}) && Avoids(g, {']'});
    SplitIsUnique(h, s, g, t, {']'});
    PrefixCancels("]", x, y);
  }

  lemma HostShape(h: string, x: string)
    requires h != "" && Avoids(h, HOST_DELIMITERS)
    ensures FormatHost(h) + x != ""
    ensures ':' in h <==> (FormatHost(h) + x)[0] == '['
    ensures FormatHost(h) == if ':' in h then "[" + h + "]" else h
  {
    assert h[0] in h;
  }

  lemma HostSplit(h: string, x: string, g: string, y: string)
    requires h != "" && g != "" && Avoids(h, HOST_DELIMITERS) && Avoids(g, HOST_DELIMITERS)
    requires EndsRun(x, {':', '/', '?'}) && EndsRun(y, {':', '/', '?'})
    requires FormatHost(h) + x == FormatHost(g) + y
    ensures h == g && x == y
  {
    HostShape(h, x);
    HostShape(g, y);
    if ':' in h {
      BracketSplit(h, x, g, y);
    } else {
      SplitIsUnique(h, x, g, y, {':', '/', '?'});
    }
  }

  /** What follows the host, and what follows the scheme. */
  ghost function Tail(u: Url): string {
    PortText(u.port) + (u.path + QueryText(u.query))
  }

  lemma ToStringShape(u: Url)
    requires u.WellFormed()
    ensures u.ToString() == u.scheme + ("://" + (FormatHost(u.host) + Tail(u)))
    ensures EndsRun(Tail(u), {':', '/', '?'}) && EndsRun(u.path + QueryText(u.query), {'/', '?'})
  {
  }

  /** `Url::ToString` is injective on well-formed URLs. */
  lemma ToStringIsInjective(u: Url, v: Url)
    requires u.WellFormed() && v.WellFormed()
    ensures u.ToString() == v.ToString() <==> u == v
  {
    if u.ToString() == v.ToString() {
      ToStringShape(u);
      ToStringShape(v);
      var x, y := FormatHost(u.host) + Tail(u), FormatHost(v.host) + Tail(v);
      SplitIsUnique(u.scheme, "://" + x, v.scheme, "://" + y, {':'});
      PrefixCancels("://", x, y);
      HostSplit(u.host, Tail(u), v.host, Tail(v));
      PortSplit(u.port, u.path + QueryText(u.query), v.port, v.path + QueryText(v.query));
      PathAndQuerySplit(u.path, u.query, v.path, v.query);
    }
  }

  // ----- When two node URLs of one client collide -----

  /** Nodes of one client share scheme and port and carry no path or query. */
  predicate Siblings(u: Url, v: Url) {
    && u.scheme == v.scheme && u.port == v.port
    && u.path == v.path == "" && u.query == v.query == ""
  }

  predicate BracketedFormOf(plain: string, bracketed: string) {
    ':' in plain && plain[0] != '[' && bracketed == "[" + plain + "]"
  }

  /** For the nodes of one client, with no assumption on the host text: two different
      nodes have the same text exactly when both are empty or one is the other's bracketed form. */
  lemma SiblingsCollideExactly(u: Url, v: Url)
    requires Siblings(u, v)
    ensures u.ToString() == v.ToString() <==>
            (u == v || (u.Empty() && v.Empty()) || BracketedFormOf(u.host, v.host) || BracketedFormOf(v.host, u.host))
  {
    var x := PortText(u.port);
    if !u.Empty() && !v.Empty() {
      var s, t := FormatHost(u.host), FormatHost(v.host);
      assert u.ToString() == u.scheme + "://" + s + x && v.ToString() == u.scheme + "://" + t + x;
      var pre := u.scheme + "://";
      if u.ToString() == v.ToString() {
        assert s == u.ToString()[|pre|..|pre| + |s|] && t == v.ToString()[|pre|..|pre| + |t|];
        assert s == t;
        if u.host != v.host {
          assert s[0] == '[';
          if ':' in u.host && u.host[0] != '[' {
            assert s[1..|s| - 1] == u.host;
          }
          if ':' in v.host && v.host[0] != '[' {
            assert t[1..|t| - 1] == v.host;
          }
        }
      }
    } else if !u.Empty() || !v.Empty() {
      assert |"://"| == 3;
    }
  }

  /** The two equalities of `Url` disagree outside the well-formed URLs. */
  lemma EqualitiesDisagree()
    ensures var plain, bracketed := Url("http", "::1", 8080, "", ""), Url("http", "[::1]", 8080, "", "");
            plain != bracketed && plain.ToString() == bracketed.ToString()
    ensures var a, b := Url("http", "", 1, "", ""), Url("https", "", 2, "", "");
            a != b && a.ToString() == b.ToString()
  {
    var plain, bracketed := Url("http", "::1", 8080, "", ""), Url("http", "[::1]", 8080, "", "");
    assert BracketedFormOf(plain.host, bracketed.host);
    SiblingsCollideExactly(plain, bracketed);
  }

  // ----- operator< -----

  /** `std::string::operator<`. */
  predicate TextLess(a: string, b: string) {
    if b == "" then false
    else if a == "" then true
    else a[0] < b[0] || (a[0] == b[0] && TextLess(a[1..], b[1..]))
  }

  predicate Less(u: Url, v: Url) {
    TextLess(u.ToString(), v.ToString())
  }

  lemma {:induction false} TextTrichotomy(a: string, b: string)
    ensures !(TextLess(a, b) && TextLess(b, a))
    ensures !TextLess(a, b) && !TextLess(b, a) <==> a == b
  {
    if a != "" && b != "" {
      TextTrichotomy(a[1..], b[1..]);
      assert a == [a[0]] + a[1..] && b == [b[0]] + b[1..];
    }
  }

  lemma {:induction false} TextTransitive(a: string, b: string, c: string)
    requires TextLess(a, b) && TextLess(b, c)
    ensures TextLess(a, c)
  {
    if a != "" && a[0] == b[0] == c[0] {
      TextTransitive(a[1..], b[1..], c[1..]);
    }
  }

  /** `operator<` is a strict order on all URLs, and on well-formed ones it is total
      and its equivalence is `operator==`. */
  lemma LessIsStrictTotalOrder(u: Url, v: Url, w: Url)
    ensures !(Less(u, v) && Less(v, u))
    ensures Less(u, v) && Less(v, w) ==> Less(u, w)
    ensures u.WellFormed() && v.WellFormed() ==> (!Less(u, v) && !Less(v, u) <==> u == v)
  {
    TextTrichotomy(u.ToString(), v.ToString());
    if Less(u, v) && Less(v, w) {
      TextTransitive(u.ToString(), v.ToString(), w.ToString());
    }
    if u.WellFormed() && v.WellFormed() {
      ToStringIsInjective(u, v);
    }
  }

  /** One text is a proper prefix of the other, or at the first place where they differ its character is smaller. */
  ghost predicate ComesBefore(a: string, b: string) {
    (|a| < |b| && a == b[..|a|]) || exists i: nat :: SmallerFirstAt(a, b, i)
  }

  ghost predicate SmallerFirstAt(a: string, b: string, i: nat) {
    i < |a| && i < |b| && a[..i] == b[..i] && (a[i] as int) < (b[i] as int)
  }

  lemma {:induction false} TextLessExactly(a: string, b: string)
    ensures TextLess(a, b) <==> ComesBefore(a, b)
  {
    if a != "" && b != "" {
      TextLessExactly(a[1..], b[1..]);
      assert a == [a[0]] + a[1..] && b == [b[0]] + b[1..];
      if a[0] == b[0] {
        ComesBeforeInRest(a, b);
      } else {
        assert a[..0] == b[..0] && (a[0] < b[0] ==> SmallerFirstAt(a, b, 0));
        assert forall i: nat | 0 < i <= |a| && i <= |b| :: a[..i][0] == a[0] && b[..i][0] == b[0];
      }
    } else if a == "" && b != "" {
      assert b[..0] == "";
    }
  }

  lemma ComesBeforeInRest(a: string, b: string)
    requires a != "" && b != "" && a[0] == b[0]
    ensures ComesBefore(a, b) <==> ComesBefore(a[1..], b[1..])
  {
    var x, y := a[1..], b[1..];
    assert a == [a[0]] + x && b == [a[0]] + y;
    assert |a| <= |b| ==> b[..|a|] == [a[0]] + y[..|x|];
    if i: nat :| SmallerFirstAt(a, b, i) {
      assert i > 0;
      assert x[..i - 1] == a[..i][1..] && y[..i - 1] == b[..i][1..];
      assert SmallerFirstAt(x, y, i - 1);
    }
    if i: nat :| SmallerFirstAt(x, y, i) {
      assert a[..i + 1] == [a[0]] + x[..i] && b[..i + 1] == [a[0]] + y[..i];
      assert SmallerFirstAt(a, b, i + 1);
    }
  }

  /** URLs are ordered as their texts are in a dictionary. */
  lemma LessIsTextOrder(u: Url, v: Url)
    ensures Less(u, v) <==> ComesBefore(u.ToString(), v.ToString())
  {
    TextLessExactly(u.ToString(), v.ToString());
  }

  // ----- What is printed -----

  /** The number that decimal digits denote. */
  function Denoted(s: string): int {
    if s == "" then 0 else 10 * Denoted(s[..|s| - 1]) + (s[|s| - 1] as int - '0' as int)
  }

  /** Ports are printed in decimal, without leading zeros. */
  lemma {:induction false} DecimalDenotes(n: nat)
    ensures Denoted(Decimal(n)) == n && (forall c | c in Decimal(n) :: '0' <= c <= '9')
    ensures |Decimal(n)| > 1 ==> Decimal(n)[0] != '0'
  {
    var s := Decimal(n);
    assert forall d: nat | d < 10 :: "0123456789"[d] as int == '0' as int + d;
    if n < 10 {
      assert s[..0] == "";
    } else {
      DecimalDenotes(n / 10);
      assert s[..|s| - 1] == Decimal(n / 10);
      assert n / 10 < 10 ==> Decimal(n / 10) == ["0123456789"[n / 10]];
    }
  }

  /** How the parts are put together: no port if it is zero, no question mark without a query, nothing at all without
      a host. */
  lemma TextForms(scheme: string, host: string, port: Port, path: string, query: string)
    requires host != "" && ':' !in host
    ensures Url(scheme, host, port, path, query).ToString() ==
            scheme + "://" + (host + (if port == 0 then "" else ":" + Decimal(port))) + path +
            (if query == "" then "" else "?" + query)
    ensures Url(scheme, "", port, path, query).ToString() == ""
  {
  }

  /** A host with a colon is bracketed, unless it is already; the port follows a colon. */
  lemma BracketForms(u: Url)
    requires ':' in u.host
    ensures u.Authority() == (if u.host[0] == '[' then u.host else "[" + u.host + "]") +
                             (if u.port == 0 then "" else ":" + Decimal(u.port))
  {
  }
}
