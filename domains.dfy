/**
 * The domain set a certificate must cover: the base domain followed by one
 * `{app id}.{base domain}` entry per installed application, and the comparison
 * of that set with the names an existing certificate already covers.
 */
module Domains {
  import opened StringOrder

  /** An application as the installed-application registry lists it (`app_versions.app.id`). */
  datatype App = App(id: string)
  datatype AppVersions = AppVersions(app: App)

  /** The subdomain of one application: `'{0}.{1}'.format(app, domain)`. */
  function AppDomain(id: string, domain: string): string
  {
    id + "." + domain
  }

  /** Distinct application ids give distinct subdomains of one base domain. */
  lemma AppDomainInjective(id1: string, id2: string, domain: string)
    requires AppDomain(id1, domain) == AppDomain(id2, domain)
    ensures id1 == id2
  {
    var r := AppDomain(id1, domain);
    assert |id1| == |id2| by { assert |r| == |id1| + 1 + |domain| == |id2| + 1 + |domain|; }
    assert id1 == r[..|id1|] == id2;
  }

  /** The unsorted list comprehension: one subdomain per application, in registry order. */
  function AppDomains(apps: seq<AppVersions>, domain: string): (r: seq<string>)
    ensures |r| == |apps|
    ensures forall k :: 0 <= k < |apps| ==> r[k] == AppDomain(apps[k].app.id, domain)
  {
    if |apps| == 0 then []
    else [AppDomain(apps[0].app.id, domain)] + AppDomains(apps[1..], domain)
  }

  lemma {:induction false} AppDomainsConcat(u: seq<AppVersions>, v: seq<AppVersions>, domain: string)
    ensures AppDomains(u + v, domain) == AppDomains(u, domain) + AppDomains(v, domain)
  {
    var l, r := AppDomains(u + v, domain), AppDomains(u, domain) + AppDomains(v, domain);
    assert |l| == |r|;
    forall k | 0 <= k < |l| ensures l[k] == r[k] {
      if k < |u| { assert (u + v)[k] == u[k]; } else { assert (u + v)[k] == v[k - |u|]; }
    }
  }

  /** Taking one application out of the list takes its subdomain out of the subdomain multiset. */
  lemma AppDomainsRemove(apps: seq<AppVersions>, k: nat, domain: string)
    requires k < |apps|
    ensures multiset(AppDomains(apps, domain))
      == multiset(AppDomains(apps[..k] + apps[k + 1..], domain)) + multiset{AppDomain(apps[k].app.id, domain)}
  {
    var u, v := apps[..k], apps[k + 1..];
    assert apps == u + ([apps[k]] + v);
    AppDomainsConcat(u, [apps[k]] + v, domain);
    AppDomainsConcat([apps[k]], v, domain);
    AppDomainsConcat(u, v, domain);
  }

  /** Reordering the application list reorders its subdomains the same way. */
  lemma {:induction false} AppDomainsPermutation(a1: seq<AppVersions>, a2: seq<AppVersions>, domain: string)
    requires multiset(a1) == multiset(a2)
    ensures multiset(AppDomains(a1, domain)) == multiset(AppDomains(a2, domain))
    decreases |a1|
  {
    if |a1| == 0 {
      assert |multiset(a2)| == 0;
    } else {
      var x := a1[0];
      assert x in multiset(a2);
      var k :| 0 <= k < |a2| && a2[k] == x;
      var rest := a2[..k] + a2[k + 1..];
      assert multiset(a1[1..]) == multiset(rest) by {
        assert a1 == [x] + a1[1..];
        assert a2 == a2[..k] + [x] + a2[k + 1..];
        calc {
          multiset(a1[1..]);
          multiset(a1) - multiset{x};
          multiset(a2) - multiset{x};
          multiset(a2[..k]) + multiset(a2[k + 1..]);
          multiset(rest);
        }
      }
      AppDomainsPermutation(a1[1..], rest, domain);
      AppDomainsRemove(a2, k, domain);
      AppDomainsRemove(a1, 0, domain);
      assert a1[..0] + a1[1..] == a1[1..];
    }
  }

  /** Two equal entries at different positions occur at least twice in the multiset. */
  lemma RepeatedEntry(s: seq<string>, i: nat, j: nat)
    requires i < j < |s| && s[i] == s[j]
    ensures multiset(s)[s[i]] >= 2
  {
    assert s == s[..j] + s[j..];
    assert s[i] in multiset(s[..j]) by { assert s[..j][i] == s[i]; }
    assert s[j] in multiset(s[j..]) by { assert s[j..][0] == s[j]; }
  }

  /** No string occurs twice in `s`. */
  ghost predicate NoRepeats(s: seq<string>)
  {
    forall x :: multiset(s)[x] <= 1
  }

  /** No application id is listed twice. */
  ghost predicate DistinctIds(apps: seq<AppVersions>)
  {
    forall i, j :: 0 <= i < j < |apps| ==> apps[i].app.id != apps[j].app.id
  }

  /** An id listed twice gives its subdomain twice. */
  lemma RepeatedIdRepeatsDomain(apps: seq<AppVersions>, domain: string)
    requires !DistinctIds(apps)
    ensures !NoRepeats(AppDomains(apps, domain))
  {
    var i, j :| 0 <= i < j < |apps| && apps[i].app.id == apps[j].app.id;
    RepeatedEntry(AppDomains(apps, domain), i, j);
  }

  /** Distinct ids give distinct subdomains. */
  lemma {:induction false} DistinctIdsDistinctDomains(apps: seq<AppVersions>, domain: string)
    requires DistinctIds(apps)
    ensures NoRepeats(AppDomains(apps, domain))
    decreases |apps|
  {
    if |apps| > 0 {
      var tail := apps[1..];
      assert DistinctIds(tail) by {
        forall i, j | 0 <= i < j < |tail| ensures tail[i].app.id != tail[j].app.id {
          assert tail[i] == apps[i + 1] && tail[j] == apps[j + 1];
        }
      }
      DistinctIdsDistinctDomains(tail, domain);
      var rest := AppDomains(tail, domain);
      var head := AppDomain(apps[0].app.id, domain);
      assert head !in multiset(rest) by {
        if head in multiset(rest) {
          var k :| 0 <= k < |rest| && rest[k] == head;
          assert tail[k] == apps[k + 1];
          AppDomainInjective(apps[k + 1].app.id, apps[0].app.id, domain);
          assert false;
        }
      }
      var ds := AppDomains(apps, domain);
      assert multiset(ds) == multiset{head} + multiset(rest);
      forall x ensures multiset(ds)[x] <= 1 {
        if x == head {
          assert multiset(rest)[x] == 0;
        }
      }
    }
  }

  /**
   * The subdomains hold no repeated entry exactly when no application id is
   * listed twice.
   */
  lemma AppDomainsDistinct(apps: seq<AppVersions>, domain: string)
    ensures NoRepeats(AppDomains(apps, domain)) <==> DistinctIds(apps)
  {
    if DistinctIds(apps) {
      DistinctIdsDistinctDomains(apps, domain);
    } else {
      RepeatedIdRepeatsDomain(apps, domain);
    }
  }

  /**
   * What `domain_list_sorted` returns: the base domain first, then the
   * application subdomains in ascending string order. Duplicates are kept and
   * nothing is case-folded.
   */
  function DomainList(apps: seq<AppVersions>, domain: string): seq<string>
  {
    [domain] + SortSeq(AppDomains(apps, domain))
  }

  /**
   * Shape of the list: base domain at index 0, one further entry per
   * application (so duplicate ids stay duplicated), the tail sorted and holding
   * exactly the application subdomains.
   */
  lemma DomainListShape(apps: seq<AppVersions>, domain: string)
    ensures var r := DomainList(apps, domain);
      && |r| == |apps| + 1
      && r[0] == domain
      && Sorted(r[1..])
      && multiset(r[1..]) == multiset(AppDomains(apps, domain))
  {
    var r := DomainList(apps, domain);
    assert r[1..] == SortSeq(AppDomains(apps, domain));
    assert |r[1..]| == |multiset(r[1..])| == |AppDomains(apps, domain)|;
  }

  /**
   * The list has no repeated entry exactly when no application id is listed
   * twice: the base domain is shorter than every subdomain, and distinct ids
   * give distinct subdomains.
   */
  lemma DomainListDistinct(apps: seq<AppVersions>, domain: string)
    ensures NoRepeats(DomainList(apps, domain)) <==> DistinctIds(apps)
  {
    var sorted := SortSeq(AppDomains(apps, domain));
    AppDomainsDistinct(apps, domain);
    BaseNotSubdomain(apps, domain);
    NoRepeatsCons(domain, sorted);
  }

  /** The base domain is shorter than, so different from, every subdomain. */
  lemma BaseNotSubdomain(apps: seq<AppVersions>, domain: string)
    ensures domain !in multiset(AppDomains(apps, domain))
  {
  }

  /** Putting a new string in front keeps a sequence free of repeats, and only then. */
  lemma NoRepeatsCons(x: string, s: seq<string>)
    requires x !in multiset(s)
    ensures NoRepeats([x] + s) <==> NoRepeats(s)
  {
    assert multiset([x] + s) == multiset{x} + multiset(s);
    if NoRepeats(s) {
      forall y ensures multiset([x] + s)[y] <= 1 {
        if y == x {
          assert multiset(s)[y] == 0;
        }
      }
    } else {
      var y :| multiset(s)[y] > 1;
      assert multiset([x] + s)[y] >= multiset(s)[y];
    }
  }

  /**
   * Every entry after the first is the subdomain of some listed application,
   * and every listed application's subdomain is among them.
   */
  lemma DomainListMembers(apps: seq<AppVersions>, domain: string)
    ensures var r := DomainList(apps, domain);
      && (forall k :: 1 <= k < |r| ==> exists a :: a in apps && r[k] == AppDomain(a.app.id, domain))
      && (forall a :: a in apps ==> AppDomain(a.app.id, domain) in r[1..])
  {
    var r := DomainList(apps, domain);
    var ds := AppDomains(apps, domain);
    DomainListShape(apps, domain);
    forall k | 1 <= k < |r| ensures exists a :: a in apps && r[k] == AppDomain(a.app.id, domain) {
      assert r[k] == r[1..][k - 1];
      assert r[k] in multiset(ds);
      var i :| 0 <= i < |ds| && ds[i] == r[k];
      assert apps[i] in apps;
    }
    forall a | a in apps ensures AppDomain(a.app.id, domain) in r[1..] {
      var i :| 0 <= i < |apps| && apps[i] == a;
      assert ds[i] in multiset(ds);
    }
  }

  /** The list does not depend on the order in which the registry lists the applications. */
  lemma DomainListPermutationInvariant(apps1: seq<AppVersions>, apps2: seq<AppVersions>, domain: string)
    requires multiset(apps1) == multiset(apps2)
    ensures DomainList(apps1, domain) == DomainList(apps2, domain)
  {
    AppDomainsPermutation(apps1, apps2, domain);
    SortedPermutationUnique(SortSeq(AppDomains(apps1, domain)), SortSeq(AppDomains(apps2, domain)));
  }

  /**
   * `domain_list_sorted`: builds the subdomain list, sorts it in place and
   * inserts the base domain at the front.
   */
  method DomainListSorted(apps: seq<AppVersions>, domain: string) returns (domains: seq<string>)
    ensures domains == DomainList(apps, domain)
  {
    var list := new string[|apps|](k requires 0 <= k < |apps| => AppDomain(apps[k].app.id, domain));
    assert list[..] == AppDomains(apps, domain);
    SortInPlace(list);
    domains := [domain] + list[..];
  }

  /** Python's `sep.join(xs)`. */
  function Join(sep: string, xs: seq<string>): string
  {
    if |xs| == 0 then ""
    else if |xs| == 1 then xs[0]
    else xs[0] + sep + Join(sep, xs[1..])
  }

  /** `'-d ' + ' -d '.join(domains)`: the certbot domain arguments. */
  function DomainArgs(domains: seq<string>): string
  {
    "-d " + Join(" -d ", domains)
  }

  /** Reference reading of the domain arguments: one `-d <domain>` flag per domain, space separated. */
  function DomainFlags(domains: seq<string>): string
  {
    if |domains| == 0 then ""
    else if |domains| == 1 then "-d " + domains[0]
    else "-d " + domains[0] + " " + DomainFlags(domains[1..])
  }

  /** For every non-empty domain list the argument string is exactly one `-d` flag per domain, in order. */
  lemma {:induction false} DomainArgsAreFlags(domains: seq<string>)
    requires |domains| > 0
    ensures DomainArgs(domains) == DomainFlags(domains)
    decreases |domains|
  {
    if |domains| > 1 {
      DomainArgsAreFlags(domains[1..]);
      var d, rest := domains[0], Join(" -d ", domains[1..]);
      calc {
        DomainArgs(domains);
        "-d " + (d + " -d " + rest);
        "-d " + d + " " + ("-d " + rest);
        "-d " + d + " " + DomainFlags(domains[1..]);
      }
    }
  }

  /**
   * `apps_to_certbot_domain_args`: the `-d` arguments for the sorted domain
   * list, whose first flag is always the base domain.
   */
  method AppsToCertbotDomainArgs(apps: seq<AppVersions>, domain: string) returns (args: string)
    ensures args == DomainFlags(DomainList(apps, domain))
    ensures |apps| == 0 ==> args == "-d " + domain
    ensures |apps| > 0 ==> |args| >= |domain| + 7 && args[..|domain| + 7] == "-d " + domain + " -d "
  {
    var domains := DomainListSorted(apps, domain);
    args := DomainArgs(domains);
    DomainArgsAreFlags(domains);
    DomainListShape(apps, domain);
    DomainArgsHead(domains);
  }

  /** The first flag names the first domain; a second flag follows when there is a second domain. */
  lemma DomainArgsHead(domains: seq<string>)
    requires |domains| > 0
    ensures |domains| == 1 ==> DomainArgs(domains) == "-d " + domains[0]
    ensures |domains| > 1 ==> var args, n := DomainArgs(domains), |domains[0]| + 7;
      |args| >= n && args[..n] == "-d " + domains[0] + " -d "
  {
    if |domains| > 1 {
      var rest := Join(" -d ", domains[1..]);
      assert DomainArgs(domains) == ("-d " + domains[0] + " -d ") + rest;
    }
  }

  /** `get_new_domains`: the required domains the certificate does not yet cover, as a set. */
  function GetNewDomains(currentDomains: seq<string>, certDomains: seq<string>): (r: set<string>)
    ensures forall x :: x in r <==> x in currentDomains && x !in certDomains
  {
    (set x | x in currentDomains) - (set x | x in certDomains)
  }

  /** Nothing is new exactly when the certificate covers every required domain. */
  lemma NewDomainsEmptyIffCovered(currentDomains: seq<string>, certDomains: seq<string>)
    ensures GetNewDomains(currentDomains, certDomains) == {}
        <==> forall x :: x in currentDomains ==> x in certDomains
  {
    if GetNewDomains(currentDomains, certDomains) == {} {
      forall x | x in currentDomains ensures x in certDomains {
        assert x !in GetNewDomains(currentDomains, certDomains);
      }
    }
  }

  /**
   * The new domains for a set of installed applications, in terms of the
   * applications: the base domain or an application's subdomain, and not
   * already covered by the certificate.
   */
  lemma NewDomainsOfApps(apps: seq<AppVersions>, domain: string, certDomains: seq<string>)
    ensures forall x :: (x in GetNewDomains(DomainList(apps, domain), certDomains)
      <==> (x == domain || exists a :: a in apps && x == AppDomain(a.app.id, domain)) && x !in certDomains)
  {
    var r := DomainList(apps, domain);
    DomainListMembers(apps, domain);
    forall x | x in r ensures x == domain || exists a :: a in apps && x == AppDomain(a.app.id, domain) {
      var k :| 0 <= k < |r| && r[k] == x;
      if k > 0 {
        assert exists a :: a in apps && r[k] == AppDomain(a.app.id, domain);
      }
    }
    forall x | x == domain || exists a :: a in apps && x == AppDomain(a.app.id, domain)
      ensures x in r
    {
      if x != domain {
        var a :| a in apps && x == AppDomain(a.app.id, domain);
        assert x in r[1..];
      }
    }
  }

  /** An application listed twice gives its subdomain twice: nothing is deduplicated. */
  lemma DomainListKeepsDuplicates(a: AppVersions, domain: string)
    ensures DomainList([a, a], domain) == [domain, AppDomain(a.app.id, domain), AppDomain(a.app.id, domain)]
  {
    var d := AppDomain(a.app.id, domain);
    var r := DomainList([a, a], domain);
    DomainListShape([a, a], domain);
    assert AppDomains([a, a], domain) == [d, d];
    assert r[1] in multiset(r[1..]) && r[2] in multiset(r[1..]);
  }

  /** With no applications and no certificate, only the base domain is new. */
  lemma NewDomainsBootstrap(domain: string)
    ensures GetNewDomains(DomainList([], domain), []) == {domain}
  {
    assert DomainList([], domain) == [domain];
  }

  /**
   * A certificate that lists only the base domain leaves exactly the
   * application subdomains new.
   */
  lemma NewDomainsBaseOnlyCert(apps: seq<AppVersions>, domain: string)
    ensures forall x :: (x in GetNewDomains(DomainList(apps, domain), [domain])
      <==> exists a :: a in apps && x == AppDomain(a.app.id, domain))
  {
    NewDomainsOfApps(apps, domain, [domain]);
    forall a | a in apps ensures AppDomain(a.app.id, domain) != domain {
      assert |AppDomain(a.app.id, domain)| > |domain|;
    }
  }

  /** The case of the "mail" and "files" applications under "syncloud.it". */
  lemma NewDomainsMailFiles(apps: seq<AppVersions>)
    requires apps == [AppVersions(App("mail")), AppVersions(App("files"))]
    ensures forall x :: (x in GetNewDomains(DomainList(apps, "syncloud.it"), ["syncloud.it"])
      <==> x == "mail.syncloud.it" || x == "files.syncloud.it")
  {
    NewDomainsBaseOnlyCert(apps, "syncloud.it");
    assert AppDomain("mail", "syncloud.it") == "mail.syncloud.it";
    assert AppDomain("files", "syncloud.it") == "files.syncloud.it";
    assert apps[0] in apps && apps[1] in apps;
  }
}
