// The JIRA and GitHub pull-request references: what the two anchored regular expressions match,
// a scanner that decides it in one pass, and the short forms shown in place of the URLs.

module IssueRefs {
  import opened Tasks

  // ---- character classes and tails ----

  datatype Class = NotSlash | Digit | KeyChar

  predicate In(c: Class, ch: char) {
    match c
    case NotSlash => ch != '/'
    case Digit => '0' <= ch <= '9'
    case KeyChar => 'A' <= ch <= 'Z' || '0' <= ch <= '9' || ch == '_'
  }

  predicate All(c: Class, s: string) {
    forall i :: 0 <= i < |s| ==> In(c, s[i])
  }

  predicate Some1(c: Class, s: string) {
    s != "" && All(c, s)
  }

  /** (?:[?#].*)?$ where a dot is anything but a newline. */
  predicate Tail(s: string) {
    s == "" || ((s[0] == '?' || s[0] == '#') && forall i :: 1 <= i < |s| ==> s[i] != '\n')
  }

  predicate Scheme(s: string) {
    s == "http" || s == "https"
  }

  // ---- what the expressions match ----

  datatype PR = PR(scheme: string, host: string, org: string, repo: string, number: string, tail: string)

  predicate GoodPR(p: PR) {
    Scheme(p.scheme) && Some1(NotSlash, p.host) && Some1(NotSlash, p.org) && Some1(NotSlash, p.repo)
    && Some1(Digit, p.number) && Tail(p.tail)
  }

  function PRUrl(p: PR): string {
    p.scheme + ("://" + (p.host + ("/" + (p.org + ("/" + (p.repo + ("/pull/" + (p.number + p.tail))))))))
  }

  ghost predicate MatchesPR(s: string) {
    exists p :: GoodPR(p) && PRUrl(p) == s
  }

  datatype Jira = Jira(scheme: string, host: string, project: string, number: string, tail: string)

  predicate Project(s: string) {
    |s| >= 2 && 'A' <= s[0] <= 'Z' && All(KeyChar, s)
  }

  predicate GoodJira(p: Jira) {
    Scheme(p.scheme) && Some1(NotSlash, p.host) && Project(p.project) && Some1(Digit, p.number) && Tail(p.tail)
  }

  function JiraUrl(p: Jira): string {
    p.scheme + ("://" + (p.host + ("/browse/" + (p.project + ("-" + (p.number + p.tail))))))
  }

  ghost predicate MatchesJira(s: string) {
    exists p :: GoodJira(p) && JiraUrl(p) == s
  }

  // ---- the scanner ----

  function Span(c: Class, s: string): (n: nat)
    ensures n <= |s| && All(c, s[..n]) && (n < |s| ==> !In(c, s[n]))
  {
    if s == "" || !In(c, s[0]) then 0 else
      assert s[1..][..Span(c, s[1..])] == s[1..1 + Span(c, s[1..])];
      1 + Span(c, s[1..])
  }

  function After(s: string, prefix: string): (r: Option<string>)
    ensures r.Some? ==> s == prefix + r.value
  {
    if |prefix| <= |s| && s[..|prefix|] == prefix then Some(s[|prefix|..]) else None
  }

  /** One or more characters of the class, as many as there are, and the rest. */
  function Take(c: Class, s: string): (r: Option<(string, string)>)
    ensures r.Some? ==> Some1(c, r.value.0) && s == r.value.0 + r.value.1
  {
    var n := Span(c, s);
    if n == 0 then None else Some((s[..n], s[n..]))
  }

  /** The scheme and the host, and what follows the host. */
  function ScanHost(s: string): (r: Option<(string, string, string)>)
    ensures r.Some? ==> Scheme(r.value.0) && Some1(NotSlash, r.value.1)
                        && s == r.value.0 + ("://" + (r.value.1 + r.value.2))
  {
    var secure := After(s, "https://");
    var plain := After(s, "http://");
    if secure.Some? then
      match Take(NotSlash, secure.value)
      case None => None
      case Some((host, rest)) =>
        assert s == "https" + ("://" + (host + rest));
        Some(("https", host, rest))
    else if plain.Some? then
      match Take(NotSlash, plain.value)
      case None => None
      case Some((host, rest)) =>
        assert s == "http" + ("://" + (host + rest));
        Some(("http", host, rest))
    else None
  }

  function ScanNumber(s: string): (r: Option<(string, string)>)
    ensures r.Some? ==> Some1(Digit, r.value.0) && Tail(r.value.1) && s == r.value.0 + r.value.1
  {
    match Take(Digit, s)
    case None => None
    case Some((number, tail)) => if Tail(tail) then Some((number, tail)) else None
  }

  function Prefixed(s: Option<(string, string)>, prefix: string): (r: Option<(string, string)>)
    ensures r.Some? ==> s.Some? && s.value.0 == r.value.0 && s.value.1 == prefix + r.value.1
  {
    if s.None? then None
    else match After(s.value.1, prefix)
         case None => None
         case Some(rest) => Some((s.value.0, rest))
  }

  function ScanPR(s: string): (r: Option<PR>)
    ensures r.Some? ==> GoodPR(r.value) && PRUrl(r.value) == s
  {
    match ScanHost(s)
    case None => None
    case Some((scheme, host, r1)) =>
      match After(r1, "/")
      case None => None
      case Some(r2) =>
        match Prefixed(Take(NotSlash, r2), "/")
        case None => None
        case Some((org, r3)) =>
          match Prefixed(Take(NotSlash, r3), "/pull/")
          case None => None
          case Some((repo, r4)) =>
            match ScanNumber(r4)
            case None => None
            case Some((number, tail)) => Some(PR(scheme, host, org, repo, number, tail))
  }

  function ScanJira(s: string): (r: Option<Jira>)
    ensures r.Some? ==> GoodJira(r.value) && JiraUrl(r.value) == s
  {
    match ScanHost(s)
    case None => None
    case Some((scheme, host, r1)) =>
      match After(r1, "/browse/")
      case None => None
      case Some(r2) =>
        match Prefixed(Take(KeyChar, r2), "-")
        case None => None
        case Some((project, r3)) =>
          match ScanNumber(r3)
          case None => None
          case Some((number, tail)) =>
            if Project(project) then Some(Jira(scheme, host, project, number, tail)) else None
  }

  // ---- the scanner finds every match, and there is only one ----

  lemma AfterPrefix(prefix: string, rest: string)
    ensures After(prefix + rest, prefix) == Some(rest)
  {
  }

  lemma TakeStops(c: Class, s: string, rest: string)
    requires Some1(c, s) && (rest == "" || !In(c, rest[0]))
    ensures Take(c, s + rest) == Some((s, rest))
  {
    var n := Span(c, s + rest);
    assert forall i :: 0 <= i < |s| ==> (s + rest)[i] == s[i];
    assert forall i :: 0 <= i < n ==> (s + rest)[..n][i] == (s + rest)[i];
    assert rest == "" || (s + rest)[|s|] == rest[0];
    assert (s + rest)[..|s|] == s && (s + rest)[|s|..] == rest;
  }

  lemma ScanHostFinds(scheme: string, host: string, rest: string)
    requires Scheme(scheme) && Some1(NotSlash, host) && rest != "" && rest[0] == '/'
    ensures ScanHost(scheme + ("://" + (host + rest))) == Some((scheme, host, rest))
  {
    var s := scheme + ("://" + (host + rest));
    TakeStops(NotSlash, host, rest);
    if scheme == "https" {
      assert s == "https://" + (host + rest);
      AfterPrefix("https://", host + rest);
    } else {
      assert s == "http://" + (host + rest);
      AfterPrefix("http://", host + rest);
      assert s[4] == ':' && "https://"[4] == 's';
      assert After(s, "https://") == None by {
        if |s| >= 8 {
          assert s[..8][4] == s[4];
        }
      }
    }
  }

  lemma ScanNumberFinds(number: string, tail: string)
    requires Some1(Digit, number) && Tail(tail)
    ensures ScanNumber(number + tail) == Some((number, tail))
  {
    TakeStops(Digit, number, tail);
  }

  lemma PrefixedFinds(c: Class, s: string, prefix: string, rest: string)
    requires Some1(c, s) && prefix != "" && !In(c, prefix[0])
    ensures Prefixed(Take(c, s + (prefix + rest)), prefix) == Some((s, rest))
  {
    TakeStops(c, s, prefix + rest);
    AfterPrefix(prefix, rest);
  }

  /** Whatever a pull-request URL is built from, scanning the URL gives it back. */
  lemma ScanPRFinds(p: PR)
    requires GoodPR(p)
    ensures ScanPR(PRUrl(p)) == Some(p)
  {
    var r4 := p.number + p.tail;
    var r3 := p.repo + ("/pull/" + r4);
    var r2 := p.org + ("/" + r3);
    ScanHostFinds(p.scheme, p.host, "/" + r2);
    AfterPrefix("/", r2);
    PrefixedFinds(NotSlash, p.org, "/", r3);
    PrefixedFinds(NotSlash, p.repo, "/pull/", r4);
    ScanNumberFinds(p.number, p.tail);
  }

  lemma ScanJiraFinds(p: Jira)
    requires GoodJira(p)
    ensures ScanJira(JiraUrl(p)) == Some(p)
  {
    var r3 := p.number + p.tail;
    var r2 := p.project + ("-" + r3);
    ScanHostFinds(p.scheme, p.host, "/browse/" + r2);
    AfterPrefix("/browse/", r2);
    PrefixedFinds(KeyChar, p.project, "-", r3);
    ScanNumberFinds(p.number, p.tail);
  }

  /** A string matches the pull-request expression if and only if the scanner accepts it, and it
      can be taken apart in one way only. */
  lemma PRMatchIsUnique(s: string, p: PR, q: PR)
    ensures MatchesPR(s) <==> ScanPR(s).Some?
    ensures GoodPR(p) && GoodPR(q) && PRUrl(p) == PRUrl(q) ==> p == q
  {
    if MatchesPR(s) {
      var m :| GoodPR(m) && PRUrl(m) == s;
      ScanPRFinds(m);
    }
    if GoodPR(p) && GoodPR(q) {
      ScanPRFinds(p);
      ScanPRFinds(q);
    }
  }

  lemma JiraMatchIsUnique(s: string, p: Jira, q: Jira)
    ensures MatchesJira(s) <==> ScanJira(s).Some?
    ensures GoodJira(p) && GoodJira(q) && JiraUrl(p) == JiraUrl(q) ==> p == q
  {
    if MatchesJira(s) {
      var m :| GoodJira(m) && JiraUrl(m) == s;
      ScanJiraFinds(m);
    }
    if GoodJira(p) && GoodJira(q) {
      ScanJiraFinds(p);
      ScanJiraFinds(q);
    }
  }

  // ---- short forms ----

  function ShortOf(org: string, repo: string, number: string): string {
    org + ("/" + (repo + ("#" + number)))
  }

  function PRShort(url: string): string {
    if url == "" then ""
    else match ScanPR(url)
         case None => url
         case Some(p) => ShortOf(p.org, p.repo, p.number)
  }

  function JiraShort(url: string): string {
    if url == "" then ""
    else match ScanJira(url)
         case None => url
         case Some(p) => p.project + ("-" + p.number)
  }

  // ---- the same on plain text ----

  /** s is a pull-request URL with these parts, said on its characters. */
  ghost predicate PRText(s: string, scheme: string, host: string, org: string, repo: string, number: string,
      tail: string)
  {
    && (scheme == "http" || scheme == "https")
    && host != "" && org != "" && repo != "" && number != ""
    && '/' !in host && '/' !in org && '/' !in repo
    && (forall c :: c in number ==> c in "0123456789")
    && (tail == "" || ((tail[0] == '?' || tail[0] == '#') && '\n' !in tail))
    && s == scheme + "://" + host + "/" + org + "/" + repo + "/pull/" + number + tail
  }

  /** s is a JIRA URL with these parts, said on its characters. */
  ghost predicate JiraText(s: string, scheme: string, host: string, project: string, number: string, tail: string) {
    && (scheme == "http" || scheme == "https")
    && host != "" && '/' !in host && |project| >= 2 && number != ""
    && project[0] in "ABCDEFGHIJKLMNOPQRSTUVWXYZ"
    && (forall c :: c in project ==> c in "ABCDEFGHIJKLMNOPQRSTUVWXYZ0123456789_")
    && (forall c :: c in number ==> c in "0123456789")
    && (tail == "" || ((tail[0] == '?' || tail[0] == '#') && '\n' !in tail))
    && s == scheme + "://" + host + "/browse/" + project + "-" + number + tail
  }

  lemma DigitsOnText(s: string)
    ensures All(Digit, s) <==> forall c :: c in s ==> c in "0123456789"
  {
    forall c: char
      ensures In(Digit, c) <==> c in "0123456789"
    {
      var digits := "0123456789";
      if In(Digit, c) {
        assert digits[c as int - '0' as int] == c;
      }
    }
    assert forall i :: 0 <= i < |s| ==> s[i] in s;
  }

  lemma CapitalOnText(c: char)
    ensures 'A' <= c <= 'Z' <==> c in "ABCDEFGHIJKLMNOPQRSTUVWXYZ"
  {
    var capitals := "ABCDEFGHIJKLMNOPQRSTUVWXYZ";
    if 'A' <= c <= 'Z' {
      assert capitals[c as int - 'A' as int] == c;
    }
  }

  lemma KeyOnText(s: string)
    ensures All(KeyChar, s) <==> forall c :: c in s ==> c in "ABCDEFGHIJKLMNOPQRSTUVWXYZ0123456789_"
  {
    var capitals, digits, key := "ABCDEFGHIJKLMNOPQRSTUVWXYZ", "0123456789", "ABCDEFGHIJKLMNOPQRSTUVWXYZ0123456789_";
    assert key == capitals + digits + "_";
    forall c: char
      ensures In(KeyChar, c) <==> c in key
    {
      CapitalOnText(c);
      DigitsOnText([c]);
      assert In(Digit, c) <==> c in digits by {
        assert [c][0] == c;
        assert All(Digit, [c]) <==> In(Digit, c);
      }
    }
    assert forall i :: 0 <= i < |s| ==> s[i] in s;
  }

  lemma NoSlashOnText(s: string)
    ensures All(NotSlash, s) <==> '/' !in s
  {
  }

  lemma TailOnText(s: string)
    ensures Tail(s) <==> s == "" || ((s[0] == '?' || s[0] == '#') && '\n' !in s)
  {
  }

  lemma PRUrlOnText(p: PR)
    ensures PRUrl(p)
         == p.scheme + "://" + p.host + "/" + p.org + "/" + p.repo + "/pull/" + p.number + p.tail
  {
    var r4 := p.number + p.tail;
    var r3 := p.repo + ("/pull/" + r4);
    var r2 := p.org + ("/" + r3);
    var l2 := p.scheme + "://" + p.host + "/";
    assert PRUrl(p) == l2 + r2;
    assert l2 + r2 == l2 + p.org + "/" + r3;
    assert l2 + p.org + "/" + r3 == l2 + p.org + "/" + p.repo + "/pull/" + r4;
    assert l2 + p.org + "/" + p.repo + "/pull/" + r4 == l2 + p.org + "/" + p.repo + "/pull/" + p.number + p.tail;
  }

  lemma JiraUrlOnText(p: Jira)
    ensures JiraUrl(p) == p.scheme + "://" + p.host + "/browse/" + p.project + "-" + p.number + p.tail
  {
    var r3 := p.number + p.tail;
    var r2 := p.project + ("-" + r3);
    var l2 := p.scheme + "://" + p.host + "/browse/";
    assert JiraUrl(p) == l2 + r2;
    assert l2 + r2 == l2 + p.project + "-" + r3;
    assert l2 + p.project + "-" + r3 == l2 + p.project + "-" + p.number + p.tail;
  }

  lemma GoodPROnText(p: PR)
    ensures GoodPR(p) <==> PRText(PRUrl(p), p.scheme, p.host, p.org, p.repo, p.number, p.tail)
  {
    PRUrlOnText(p);
    NoSlashOnText(p.host);
    NoSlashOnText(p.org);
    NoSlashOnText(p.repo);
    DigitsOnText(p.number);
    TailOnText(p.tail);
  }

  lemma GoodJiraOnText(p: Jira)
    ensures GoodJira(p) <==> JiraText(JiraUrl(p), p.scheme, p.host, p.project, p.number, p.tail)
  {
    JiraUrlOnText(p);
    NoSlashOnText(p.host);
    KeyOnText(p.project);
    if p.project != "" {
      CapitalOnText(p.project[0]);
    }
    DigitsOnText(p.number);
    TailOnText(p.tail);
  }

  lemma ShortOfOnText(org: string, repo: string, number: string)
    ensures ShortOf(org, repo, number) == org + "/" + repo + "#" + number
  {
    assert org + ("/" + (repo + ("#" + number))) == org + "/" + (repo + ("#" + number));
    assert org + "/" + (repo + ("#" + number)) == org + "/" + repo + ("#" + number);
  }

  /** A pull-request URL is shown as its organisation, a slash, its repository, a hash and its
      number. */
  lemma PRShortOnText(s: string, scheme: string, host: string, org: string, repo: string, number: string, tail: string)
    requires PRText(s, scheme, host, org, repo, number, tail)
    ensures PRShort(s) == org + "/" + repo + "#" + number
  {
    var p := PR(scheme, host, org, repo, number, tail);
    PRUrlOnText(p);
    GoodPROnText(p);
    ScanPRFinds(p);
    ShortOfOnText(org, repo, number);
  }

  /** A JIRA URL is shown as its issue key. */
  lemma JiraShortOnText(s: string, scheme: string, host: string, project: string, number: string, tail: string)
    requires JiraText(s, scheme, host, project, number, tail)
    ensures JiraShort(s) == project + "-" + number
  {
    var p := Jira(scheme, host, project, number, tail);
    JiraUrlOnText(p);
    GoodJiraOnText(p);
    ScanJiraFinds(p);
    assert project + ("-" + number) == project + "-" + number;
  }

  /** ValidatePR accepts exactly the texts of this form, and every other text is shown as it is. */
  lemma PRValidIffText(s: string)
    ensures MatchesPR(s) <==>
            exists scheme, host, org, repo, number, tail :: PRText(s, scheme, host, org, repo, number, tail)
    ensures !MatchesPR(s) ==> PRShort(s) == s
  {
    if p: PR :| GoodPR(p) && PRUrl(p) == s {
      GoodPROnText(p);
    }
    if scheme, host, org, repo, number, tail :| PRText(s, scheme, host, org, repo, number, tail) {
      var p := PR(scheme, host, org, repo, number, tail);
      PRUrlOnText(p);
      GoodPROnText(p);
    }
    if !MatchesPR(s) {
      NoMatchNoScan(s);
    }
  }

  /** The same for JIRA URLs. */
  lemma JiraValidIffText(s: string)
    ensures MatchesJira(s) <==>
            exists scheme, host, project, number, tail :: JiraText(s, scheme, host, project, number, tail)
    ensures !MatchesJira(s) ==> JiraShort(s) == s
  {
    if p: Jira :| GoodJira(p) && JiraUrl(p) == s {
      GoodJiraOnText(p);
    }
    if scheme, host, project, number, tail :| JiraText(s, scheme, host, project, number, tail) {
      var p := Jira(scheme, host, project, number, tail);
      JiraUrlOnText(p);
      GoodJiraOnText(p);
    }
    if ScanJira(s).Some? {
      assert GoodJira(ScanJira(s).value) && JiraUrl(ScanJira(s).value) == s;
    }
  }

  /** Two strings cut at a mark: if neither left part holds the mark, the cut is in the same place. */
  lemma SameFirstCut(a: string, x: string, b: string, y: string, mark: char)
    requires a + ([mark] + x) == b + ([mark] + y) && mark !in a && mark !in b
    ensures a == b && x == y
  {
    var s := a + ([mark] + x);
    assert s[|a|] == mark && s[|b|] == mark;
    assert forall i :: 0 <= i < |a| ==> s[i] == a[i];
    assert forall i :: 0 <= i < |b| ==> s[i] == b[i];
    assert s[..|a|] == a && s[..|b|] == b && s[|a| + 1..] == x && s[|b| + 1..] == y;
  }

  /** The same from the right. */
  lemma SameLastCut(x: string, a: string, y: string, b: string, mark: char)
    requires x + ([mark] + a) == y + ([mark] + b) && mark !in a && mark !in b
    ensures a == b && x == y
  {
    var s := x + ([mark] + a);
    assert |s| == |x| + 1 + |a| == |y| + 1 + |b|;
    assert s[|x|] == mark && s[|y|] == mark;
    assert forall i :: |x| < i < |s| ==> s[i] == a[i - |x| - 1];
    assert forall i :: |y| < i < |s| ==> s[i] == b[i - |y| - 1];
    assert s[..|x|] == x && s[..|y|] == y && s[|x| + 1..] == a && s[|y| + 1..] == b;
  }

  /** On valid URLs two pull requests look the same in short if and only if they agree in
      organisation, repository and number, even where names contain '#'. */
  lemma PRShortInjective(u: string, v: string)
    requires MatchesPR(u) && MatchesPR(v)
    ensures ScanPR(u).Some? && ScanPR(v).Some?
    ensures var p, q := ScanPR(u).value, ScanPR(v).value;
            PRShort(u) == PRShort(v) <==> p.org == q.org && p.repo == q.repo && p.number == q.number
  {
    var p0: PR :| GoodPR(p0) && PRUrl(p0) == u;
    var q0: PR :| GoodPR(q0) && PRUrl(q0) == v;
    PRMatchIsUnique(u, p0, p0);
    PRMatchIsUnique(v, q0, q0);
    var p, q := ScanPR(u).value, ScanPR(v).value;
    if PRShort(u) == PRShort(v) {
      SameFirstCut(p.org, p.repo + ("#" + p.number), q.org, q.repo + ("#" + q.number), '/');
      SameLastCut(p.repo, p.number, q.repo, q.number, '#');
    }
  }

  /** On valid URLs two JIRA references look the same in short if and only if they agree in project
      and number: a project key holds no '-', so the short form can be cut in one place only. And a
      short form starts with a capital, so it is never itself a valid URL. */
  lemma JiraShortInjective(u: string, v: string)
    requires MatchesJira(u) && MatchesJira(v)
    ensures ScanJira(u).Some? && ScanJira(v).Some?
    ensures var p, q := ScanJira(u).value, ScanJira(v).value;
            JiraShort(u) == JiraShort(v) <==> p.project == q.project && p.number == q.number
    ensures JiraShort(u) != v
  {
    var p0: Jira :| GoodJira(p0) && JiraUrl(p0) == u;
    var q0: Jira :| GoodJira(q0) && JiraUrl(q0) == v;
    JiraMatchIsUnique(u, p0, p0);
    JiraMatchIsUnique(v, q0, q0);
    var p, q := ScanJira(u).value, ScanJira(v).value;
    if JiraShort(u) == JiraShort(v) {
      SameFirstCut(p.project, p.number, q.project, q.number, '-');
    }
    assert JiraShort(u)[0] == p.project[0] && v[0] == q0.scheme[0];
  }

  /** A short form has no two slashes in a row, so it is no URL. */
  lemma ShortIsNoURL(org: string, repo: string, number: string, q: PR)
    requires Some1(NotSlash, org) && Some1(NotSlash, repo) && GoodPR(q)
    ensures ShortOf(org, repo, number) != PRUrl(q)
  {
    var rest := "/" + (q.host + ("/" + (q.org + ("/" + (q.repo + ("/pull/" + (q.number + q.tail)))))));
    assert PRUrl(q) == (q.scheme + ":") + (['/'] + rest);
    assert ShortOf(org, repo, number) == org + (['/'] + (repo + ("#" + number)));
    assert (repo + ("#" + number))[0] == repo[0];
    if ShortOf(org, repo, number) == PRUrl(q) {
      SameFirstCut(org, repo + ("#" + number), q.scheme + ":", rest, '/');
    }
  }

  /** The short form of a valid URL is never itself a valid URL, so shortening twice is shortening
      once, and so every short form is also how some text that is no URL is shown: injectivity
      holds on valid URLs and nowhere beyond. */
  lemma ShortFormsAreFixed(u: string)
    ensures PRShort(PRShort(u)) == PRShort(u)
    ensures MatchesPR(u) ==> !MatchesPR(PRShort(u)) && PRShort(u) != u
  {
    if MatchesPR(u) {
      var p: PR :| GoodPR(p) && PRUrl(p) == u;
      ScanPRFinds(p);
      NotScanned(p);
    } else if u != "" {
      NoMatchNoScan(u);
    }
  }

  lemma NotScanned(p: PR)
    requires GoodPR(p)
    ensures var s := ShortOf(p.org, p.repo, p.number);
            ScanPR(s) == None && !MatchesPR(s) && s != "" && s != PRUrl(p)
  {
    var s := ShortOf(p.org, p.repo, p.number);
    forall q: PR | GoodPR(q)
      ensures PRUrl(q) != s
    {
      ShortIsNoURL(p.org, p.repo, p.number, q);
    }
    NoMatchNoScan(s);
  }

  lemma NoMatchNoScan(s: string)
    requires !MatchesPR(s)
    ensures ScanPR(s) == None
  {
    var r := ScanPR(s);
  }
}
