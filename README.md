# Certificate domain logic of the Syncloud platform's certbot generator

This project models the certificate-lifecycle core of the platform's
`certbot_generator` module in Dafny and proves properties of the model:

- **Domain list**: the base domain followed by `{app id}.{base domain}` for
  every installed application, sorted in place with Python's string order
  (`domain_list_sorted`), and the certbot `-d` arguments built from it
  (`apps_to_certbot_domain_args`).
- **New-domain check**: the required domains missing from the certificate's
  subject-alternative-name list (section 4.2.1.6 of RFC 5280). This is
  `get_new_domains` and `CertbotGenerator.new_domains`.
- **Expiry arithmetic**: parsing the notAfter GeneralizedTime text
  `YYYYMMDDHHMMSSZ` (section 4.1.2.5.2 of RFC 5280) as
  `strptime("%Y%m%d%H%M%SZ")` does, and the whole-day count
  `(expiry - today).days`, floored. This is `expiry_date_string_to_days` and
  `CertbotGenerator.days_until_expiry`.
- **Issuance**: the single certbot command line, the conditional `chmod 755`
  of the archive and live directories, and the result or re-raised error of
  `CertbotGenerator.generate_certificate`.

Files and modules:

- `wrappers.dfy` (`Wrappers`): `Option` and `Result`.
- `string_order.dfy` (`StringOrder`): Python string ordering, a functional
  insertion sort used as the specification, and `SortInPlace`, the in-place
  `list.sort()` on an array.
- `domains.dfy` (`Domains`): the domain list, the `-d` arguments and
  `get_new_domains`.
- `expiry.dfy` (`Expiry`): the calendar (Python's `_ymd2ord` day numbering),
  the parser and the day count.
- `certbot_generator.dfy` (`Certbot`): class `CertbotGenerator`. Its
  constructor fixes the paths as `__init__` does. Its members model
  `generate_certificate`, `days_until_expiry` and `new_domains`.

The collaborators are inputs, not code:

- `platform_config` becomes three directory strings, read once when the
  generator is built.
- `info.domain()`, `sam.list()` and the user's e-mail are arguments of each
  call, since the source reads them on every call.
- The certificate file becomes a `CertFile` value: missing, not a regular
  file, unloadable, or a loaded certificate with its notAfter text and its
  subject-alternative-name DNS entries.
- The shell becomes a function from command line to exit status and captured
  output. The output is stdout and stderr combined for the certbot command,
  and stdout alone for the two `chmod` commands.
- `path.exists` on the two certbot directories becomes two booleans.
- The clock reading becomes a `DateTime` argument.

The model follows the code as written:

- Application ids are not deduplicated, and domains are neither case-folded
  nor stripped of a trailing dot.
- A certificate that cannot be loaded raises OpenSSL's error
  (`CertificateError` here). No dedicated parse-error type exists.
- Issuance is not serialised by any lock.

## Model

| member | source | states |
|---|---|---|
| `StringOrder.LessEqTotal` | src/syncloud_platform/certificate/certbot/certbot_generator.py:25 | any two strings are comparable under the order `list.sort()` uses |
| `StringOrder.LessEqAntisymmetric` | src/syncloud_platform/certificate/certbot/certbot_generator.py:25 | strings that are each at most the other are equal |
| `StringOrder.LessEqTransitive` | src/syncloud_platform/certificate/certbot/certbot_generator.py:25 | the string order is transitive |
| `StringOrder.SortedPermutationUnique` | src/syncloud_platform/certificate/certbot/certbot_generator.py:25 | two sorted sequences with the same multiset of elements are equal, so a sort's output does not depend on the input order |
| `StringOrder.SortSeq` | src/syncloud_platform/certificate/certbot/certbot_generator.py:25 | the specification of the sort: output sorted and a permutation of the input |
| `StringOrder.SortInPlace` | src/syncloud_platform/certificate/certbot/certbot_generator.py:25 | sorting the array in place leaves exactly the sorted permutation of its old contents |
| `Domains.AppDomains` | src/syncloud_platform/certificate/certbot/certbot_generator.py:23-24 | one `id.domain` entry per application, in registry order |
| `Domains.AppDomainInjective` | src/syncloud_platform/certificate/certbot/certbot_generator.py:24 | different application ids give different subdomains of one base domain |
| `Domains.AppDomainsPermutation` | src/syncloud_platform/certificate/certbot/certbot_generator.py:23-24 | reordering the applications reorders the subdomains the same way (same multiset) |
| `Domains.DomainListShape` | src/syncloud_platform/certificate/certbot/certbot_generator.py:21-27 | base domain at index 0, length = applications + 1, the rest sorted and exactly the application subdomains with multiplicity |
| `Domains.AppDomainsDistinct` | src/syncloud_platform/certificate/certbot/certbot_generator.py:23-24 | the subdomains hold no repeated entry exactly when no application id is listed twice |
| `Domains.DomainListDistinct` | src/syncloud_platform/certificate/certbot/certbot_generator.py:21-27 | the whole list, base domain included, holds no repeated entry exactly when no application id is listed twice |
| `Domains.DomainListMembers` | src/syncloud_platform/certificate/certbot/certbot_generator.py:23-26 | every entry after index 0 is some listed application's subdomain, and every listed application's subdomain appears |
| `Domains.DomainListPermutationInvariant` | src/syncloud_platform/certificate/certbot/certbot_generator.py:23-26 | any permutation of the application list gives the identical domain list |
| `Domains.DomainListKeepsDuplicates` | src/syncloud_platform/certificate/certbot/certbot_generator.py:23-26 | an application listed twice gives its subdomain twice |
| `Domains.DomainListSorted` | src/syncloud_platform/certificate/certbot/certbot_generator.py:21-27 | building the list, sorting it in place and inserting the base domain at the front gives the specified domain list |
| `Domains.DomainArgsAreFlags` | src/syncloud_platform/certificate/certbot/certbot_generator.py:17 | for a non-empty list, `'-d ' + ' -d '.join(domains)` is exactly one `-d <domain>` flag per domain, in order, space separated |
| `Domains.DomainArgsHead` | src/syncloud_platform/certificate/certbot/certbot_generator.py:17 | the first flag names the first domain, followed by a second `-d` when there is a second domain |
| `Domains.AppsToCertbotDomainArgs` | src/syncloud_platform/certificate/certbot/certbot_generator.py:15-18 | the arguments are the `-d` flags of the sorted domain list; with no applications exactly `-d <domain>`; otherwise they start `-d <domain> -d ` |
| `Domains.GetNewDomains` | src/syncloud_platform/certificate/certbot/certbot_generator.py:109-110 | `x` is new iff it is a required domain and not a certificate domain |
| `Domains.NewDomainsEmptyIffCovered` | src/syncloud_platform/certificate/certbot/certbot_generator.py:109-110 | nothing is new iff the certificate lists every required domain |
| `Domains.NewDomainsOfApps` | src/syncloud_platform/certificate/certbot/certbot_generator.py:94-101 | a new domain is the base domain or an installed application's subdomain that the certificate does not list |
| `Domains.NewDomainsBootstrap` | src/syncloud_platform/certificate/certbot/certbot_generator.py:96-101 | with no applications and no certificate the base domain alone is new |
| `Domains.NewDomainsBaseOnlyCert` | src/syncloud_platform/certificate/certbot/certbot_generator.py:109-110 | a certificate for the base domain alone leaves exactly the application subdomains new |
| `Domains.NewDomainsMailFiles` | src/syncloud_platform/certificate/certbot/certbot_generator.py:109-110 | apps `mail`, `files` under `syncloud.it` with a certificate for `syncloud.it` give exactly `mail.syncloud.it` and `files.syncloud.it` |
| `Expiry.DaysBeforeYearStep` | src/syncloud_platform/certificate/certbot/certbot_generator.py:106 | the day numbering advances by 365 or 366 days per year, by the Gregorian leap rule |
| `Expiry.OrdinalNextDay` | src/syncloud_platform/certificate/certbot/certbot_generator.py:106 | the next calendar day has the next day number, across month and year ends |
| `Expiry.NextDayIsOneDayLater` | src/syncloud_platform/certificate/certbot/certbot_generator.py:106 | the same time on the next calendar day is exactly one day of microseconds later |
| `Expiry.ParseGeneralizedTime` | src/syncloud_platform/certificate/certbot/certbot_generator.py:105 | a successful parse comes from a 15-character text and is a valid datetime with no microseconds |
| `Expiry.ParseSpellsInstant` | src/syncloud_platform/certificate/certbot/certbot_generator.py:105 | every accepted text is the `YYYYMMDDHHMMSSZ` spelling of the instant it parses to, up to a space-padded day and a lower-case `z`; with the round trip below, strptime accepts exactly the spellings of valid instants and raises on every other text |
| `Expiry.ParseRejectsOutOfRangeFields` | src/syncloud_platform/certificate/certbot/certbot_generator.py:105 | a text with month 13, hour 24 or second 60 raises |
| `Expiry.ParseFormatRoundTrip` | src/syncloud_platform/certificate/certbot/certbot_generator.py:105 | parsing the `YYYYMMDDHHMMSSZ` text of any valid whole-second instant gives that instant back |
| `Expiry.ExpiryDateStringToDays` | src/syncloud_platform/certificate/certbot/certbot_generator.py:104-106 | fails iff strptime fails; otherwise the result `d` satisfies `d` days <= expiry - today < `d` + 1 days (floor, so negative for a past expiry) |
| `Expiry.FloorDaysUnique` | src/syncloud_platform/certificate/certbot/certbot_generator.py:106 | the floor bounds determine the day count |
| `Expiry.DaysShiftWithClock` | src/syncloud_platform/certificate/certbot/certbot_generator.py:104-106 | moving `today` later by `k` whole days lowers the count by exactly `k` |
| `Expiry.ExpiryAtItsOwnInstant` | src/syncloud_platform/certificate/certbot/certbot_generator.py:104-106 | at the expiry instant the count is 0 |
| `Expiry.ExpiryTenDaysAhead` | src/syncloud_platform/certificate/certbot/certbot_generator.py:104-106 | an expiry exactly ten days ahead counts 10 |
| `Expiry.ExpiryOneSecondShort` | src/syncloud_platform/certificate/certbot/certbot_generator.py:104-106 | ten days minus one second counts 9 |
| `Expiry.ExpiryInThePast` | src/syncloud_platform/certificate/certbot/certbot_generator.py:104-106 | an expiry twelve hours ago counts -1 |
| `Expiry.ExpiryInvalidDay` | src/syncloud_platform/certificate/certbot/certbot_generator.py:105 | a notAfter of 30 February raises instead of giving a count |
| `Certbot.CertbotGenerator.constructor` | src/syncloud_platform/certificate/certbot/certbot_generator.py:31-43 | the certbot binary, log and config directories, and the fixed `{data_dir}/certbot/live/{domain}/fullchain.pem` and `privkey.pem` paths |
| `Certbot.CertbotGenerator.TestCertIsOnlyDifference` | src/syncloud_platform/certificate/certbot/certbot_generator.py:50-65 | the test-mode command is the production command with `--test-cert --break-my-certs` inserted at one place, and differs in nothing else |
| `Certbot.CertbotGenerator.CommandFlags` | src/syncloud_platform/certificate/certbot/certbot_generator.py:58-65 | every command contains `certonly --force-renewal --cert-name <base domain>` and the domain arguments, and contains the test flags when test mode is asked for |
| `Certbot.CertbotGenerator.ChmodOnlyExistingDirs` | src/syncloud_platform/certificate/certbot/certbot_generator.py:68-73 | `chmod 755` of the archive (live) directory is planned iff that directory exists |
| `Certbot.CertbotGenerator.GenerateCertificate` | src/syncloud_platform/certificate/certbot/certbot_generator.py:45-79 | runs the certbot command, then the chmods of existing directories, stopping at the first non-zero exit with that command's error; only a complete run returns the fixed certificate and key paths |
| `Certbot.CertbotGenerator.DaysUntilExpiry` | src/syncloud_platform/certificate/certbot/certbot_generator.py:81-90 | 0 for a missing file; an error for a non-file, an unloadable certificate or an unparsable notAfter; otherwise the floored day count from the module import time, whatever the time of the call |
| `Certbot.CertbotGenerator.DaysUntilExpiryAt` | src/syncloud_platform/certificate/certbot/certbot_generator.py:81-90 | the same cases, with the count taken from the time of the call |
| `Certbot.CertbotGenerator.DaysUntilExpiryAtAges` | src/syncloud_platform/certificate/certbot/certbot_generator.py:89 | with the call-time clock the count falls by one for each day that passes |
| `Certbot.CertbotGenerator.StaleImportClock` | src/syncloud_platform/certificate/certbot/certbot_generator.py:104 | a certificate expiring ten days after import still counts 10 at its expiry instant, where the call-time count is 0 |
| `Certbot.CertbotGenerator.NewDomains` | src/syncloud_platform/certificate/certbot/certbot_generator.py:92-101 | fails iff the certificate cannot be loaded; otherwise exactly the required domains the certificate does not list, and every required domain when no regular file is present |

## Findings

| source | as written | input that shows it | evidently intended | confidence | as-written member | corrected member |
|---|---|---|---|---|---|---|
| src/syncloud_platform/certificate/certbot/certbot_generator.py:104 | `today=datetime.today()` is a default argument. Python evaluates it once, when the module is imported, and `days_until_expiry` never passes `today` | module imported 2020-01-01 00:00; notAfter `20200111000000Z`; `days_until_expiry` called 2020-01-11 00:00 returns 10 | days counted from the moment of the call, which gives 0 | medium, not executed | `Certbot.CertbotGenerator.DaysUntilExpiry` (discrepancy: `Certbot.CertbotGenerator.StaleImportClock`) | `Certbot.CertbotGenerator.DaysUntilExpiryAt` (ages with the clock: `Certbot.CertbotGenerator.DaysUntilExpiryAtAges`) |

## Left out

- Logging (`self.log.info`, `self.log.warn`) is not modelled, because it has no effect on results.
- The real subprocess, shell, filesystem checks, OpenSSL loading and `get_subj_alt_name` are inputs (see above). Shell word splitting and quoting of the command line are not modelled: the command is the string the shell receives.
- `Domains.GetNewDomains` returns a set. The source returns `list(set(...))`, whose order is Python's set iteration order; that order is unspecified and not modelled.
- `Expiry.ParseGeneralizedTime` rejects texts shorter than 15 characters. strptime would also accept some of those, where a month, day or time field has a single digit. For a certificate that follows RFC 5280, notAfter is a 15-character GeneralizedTime. The other 15-character spellings strptime accepts are modelled: a space-padded day and a lower-case `z`.
- `Expiry.ExpiryDateStringToDays` compares the naive UTC notAfter with `today` as given. `datetime.today()` is local time, so on a device whose clock is not UTC the count is off by the zone offset. The model leaves that offset in the caller's `today` value.
- `Certbot.CertbotGenerator.CommandFlags` shows that test mode adds the flags. It does not show that the production command lacks the text `--test-cert`, because the e-mail, the paths or the domains could contain that text. `Certbot.CertbotGenerator.TestCertIsOnlyDifference` states instead that the flags are the only difference between the two commands.
- The values of `platform_config` are taken as constant for the generator's lifetime. The source calls `data_dir()` again on every `generate_certificate` call to build the webroot path (line 54); the model uses the directory read at construction, so a configuration that changes after construction is not modelled.
- The captured output of a failed `chmod` is stdout only, because lines 70 and 73 do not redirect stderr. The model does not say what that output holds; it only passes on whatever the shell returned.
- `sam.list()` failing before the `try` block, and the logging of `e.output` before the re-raise, are not modelled.
- The certificate and key paths use the domain known at construction, while `--cert-name` uses the domain at call time. The model keeps both, as the source does, and does not reconcile them.
- `get_subj_alt_name` is taken to return the DNS names as plain strings. Some urllib3 versions return `('DNS', name)` pairs instead. Those pairs never compare equal to a domain string, so every domain would look new.
- The REST facade (`rest/public.py`), the UPnP integration test, the pytest configuration and the insider config test are not part of this model. They are web, network and test plumbing.
