/**
 * `CertbotGenerator`: paths fixed when the generator is built, the certbot
 * issuance command and its outcome, and the two read-only checks a renewal
 * scheduler asks for (days until expiry, domains not yet covered).
 *
 * The collaborators are replaced by the values they hand over: the platform
 * configuration by its three directories, `info.domain()`, `sam.list()` and
 * the user's e-mail by per-call arguments, the certificate file by what is
 * found at its path, the shell by a function from command line to outcome,
 * and `path.exists` on the two certbot directories by two booleans.
 */
module Certbot {
  import opened Wrappers
  import opened Domains
  import opened Expiry

  /** The values `platform_config` supplies: `app_dir()`, `get_log_root()`, `data_dir()`. */
  datatype PlatformConfig = PlatformConfig(appDir: string, logRoot: string, dataDir: string)

  /** A loaded certificate: its notAfter text and the DNS names of its subject alternative name extension. */
  datatype Certificate = Certificate(notAfter: string, subjAltNames: seq<string>)

  /** What is found at the certificate path when it is read. */
  datatype CertFile =
    | Missing                 // nothing at the path
    | NotAFile                // the path exists but is not a regular file
    | Unparsable              // a file OpenSSL cannot load as a PEM certificate
    | Pem(cert: Certificate)

  /**
   * What a shell command line returns: its exit status and its captured
   * output. For the certbot command that is stdout and stderr combined, since
   * that call redirects stderr; for the two `chmod` commands it is stdout
   * alone, so a failed `chmod` usually reports empty output.
   */
  datatype ProcessResult = ProcessResult(exitCode: int, output: string)

  /** The certificate and key locations handed back after a successful run. */
  datatype CertbotResult = CertbotResult(certificateFile: string, keyFile: string)

  /** The exceptions that leave the generator. */
  datatype Error =
    | CalledProcessError(returncode: int, cmd: string, output: string)
    | IOError(path: string)            // opening a path that is not a regular file
    | CertificateError(path: string)   // OpenSSL could not load the certificate
    | ValueError(text: string)         // strptime rejected the notAfter text

  const TestCertFlags := "--test-cert --break-my-certs"

  /** POSIX `os.path.join(a, b)`. */
  function PathJoin(a: string, b: string): string
  {
    if |b| > 0 && b[0] == '/' then b
    else if |a| == 0 || a[|a| - 1] == '/' then a + b
    else a + "/" + b
  }

  function Chmod755(dir: string): string
  {
    "chmod 755 " + dir
  }

  /** `t` occurs in `s`. */
  predicate Contains(s: string, t: string)
  {
    exists i :: 0 <= i <= |s| && t <= s[i..]
  }

  lemma ContainsMiddle(a: string, t: string, b: string)
    ensures Contains(a + t + b, t)
  {
    assert t <= (a + t + b)[|a|..];
  }

  /** The names a certificate file counts as covered: none unless it is a regular file. */
  function CoveredDomains(certFile: CertFile): seq<string>
    requires !certFile.Unparsable?
  {
    if certFile.Pem? then certFile.cert.subjAltNames else []
  }

  class CertbotGenerator {
    const dataDir: string
    const certbotBin: string
    const logDir: string
    const certbotConfigDir: string
    const certbotCertificateFile: string
    const certbotKeyFile: string

    /**
     * `__init__`: every path is fixed here, the certificate paths by the
     * domain the device has now. The platform configuration's directories are
     * read once and taken as constant for the generator's lifetime.
     */
    constructor (platformConfig: PlatformConfig, initDomain: string)
      ensures dataDir == platformConfig.dataDir
      ensures certbotBin == platformConfig.appDir + "/bin/certbot"
      ensures logDir == platformConfig.logRoot
      ensures certbotConfigDir == PathJoin(platformConfig.dataDir, "certbot")
      ensures certbotCertificateFile == platformConfig.dataDir + "/certbot/live/" + initDomain + "/fullchain.pem"
      ensures certbotKeyFile == platformConfig.dataDir + "/certbot/live/" + initDomain + "/privkey.pem"
    {
      dataDir := platformConfig.dataDir;
      certbotBin := platformConfig.appDir + "/bin/certbot";
      logDir := platformConfig.logRoot;
      certbotConfigDir := PathJoin(platformConfig.dataDir, "certbot");
      certbotCertificateFile := platformConfig.dataDir + "/certbot/live/" + initDomain + "/fullchain.pem";
      certbotKeyFile := platformConfig.dataDir + "/certbot/live/" + initDomain + "/privkey.pem";
    }

    function WebrootPlugin(): string
    {
      "--webroot --webroot-path " + dataDir + "/certbot/www"
    }

    /** The one shell command line that runs certbot: the format string of `generate_certificate`, filled in. */
    function CertbotCommand(email: string, domain: string, isTestCert: bool, domainArgs: string): string
    {
      CommandHead(email) + CertNameFlags(domain) + (if isTestCert then TestCertFlags else "") + CommandTail(domainArgs)
    }

    function CommandHead(email: string): string
    {
      certbotBin + " --logs-dir=" + logDir + " --max-log-backups 5 --config-dir=" + certbotConfigDir
        + " --agree-tos --email " + email
    }

    function CertNameFlags(domain: string): string
    {
      " certonly --force-renewal --cert-name " + domain + " "
    }

    function CommandTail(domainArgs: string): string
    {
      " " + WebrootPlugin() + " " + domainArgs + " "
    }

    function ArchiveDir(): string { PathJoin(certbotConfigDir, "archive") }

    function LiveDir(): string { PathJoin(certbotConfigDir, "live") }

    /** Every command a successful run issues: certbot, then a chmod for each directory that exists. */
    function PlannedCommands(command: string, archiveExists: bool, liveExists: bool): seq<string>
    {
      [command]
        + (if archiveExists then [Chmod755(ArchiveDir())] else [])
        + (if liveExists then [Chmod755(LiveDir())] else [])
    }

    /** The archive and live directories are given mode 755 exactly when they exist. */
    lemma ChmodOnlyExistingDirs(command: string, archiveExists: bool, liveExists: bool)
      ensures var chmods := PlannedCommands(command, archiveExists, liveExists)[1..];
        && (Chmod755(ArchiveDir()) in chmods <==> archiveExists)
        && (Chmod755(LiveDir()) in chmods <==> liveExists)
    {
      var archive, live := Chmod755(ArchiveDir()), Chmod755(LiveDir());
      assert archive != live by {
        assert |ArchiveDir()| == |LiveDir()| + 3;
        assert |archive| != |live|;
      }
      var chmods := PlannedCommands(command, archiveExists, liveExists)[1..];
      assert chmods == (if archiveExists then [archive] else []) + (if liveExists then [live] else []);
    }

    /**
     * Test mode changes the command in one place only: the test-server flags
     * inserted into the command that would otherwise run.
     */
    lemma TestCertIsOnlyDifference(email: string, domain: string, domainArgs: string)
      ensures var production, test := CertbotCommand(email, domain, false, domainArgs),
                                      CertbotCommand(email, domain, true, domainArgs);
        exists k :: 0 <= k <= |production| && test == production[..k] + TestCertFlags + production[k..]
    {
      var head := CommandHead(email) + CertNameFlags(domain);
      var tail := CommandTail(domainArgs);
      var production := CertbotCommand(email, domain, false, domainArgs);
      assert production == head + tail;
      assert production[..|head|] == head && production[|head|..] == tail;
    }

    /**
     * Every command forces renewal under the certificate name of the base
     * domain, carries the domain arguments, and carries the test-server flags
     * when test mode is asked for.
     */
    lemma CommandFlags(email: string, domain: string, isTestCert: bool, domainArgs: string)
      ensures var command := CertbotCommand(email, domain, isTestCert, domainArgs);
        && Contains(command, " certonly --force-renewal --cert-name " + domain + " ")
        && Contains(command, " " + domainArgs + " ")
        && (isTestCert ==> Contains(command, TestCertFlags))
    {
      var head, names, tail := CommandHead(email), CertNameFlags(domain), CommandTail(domainArgs);
      var flags := if isTestCert then TestCertFlags else "";
      var command := CertbotCommand(email, domain, isTestCert, domainArgs);
      assert command == head + names + (flags + tail);
      ContainsMiddle(head, names, flags + tail);
      assert command == (head + names) + flags + tail;
      ContainsMiddle(head + names, flags, tail);
      var args := " " + domainArgs + " ";
      assert tail == " " + WebrootPlugin() + args;
      assert command == (head + names + flags + " " + WebrootPlugin()) + args + "";
      ContainsMiddle(head + names + flags + " " + WebrootPlugin(), args, "");
    }

    /**
     * `generate_certificate`: run certbot once for the base domain and every
     * installed application, then make the archive and live directories
     * world-readable where they exist. A non-zero exit of any of these
     * commands ends the run with that command's CalledProcessError; only a
     * complete run returns the certificate and key paths.
     */
    method GenerateCertificate(isTestCert: bool, apps: seq<AppVersions>, domain: string, email: string,
                               run: string -> ProcessResult, archiveExists: bool, liveExists: bool)
      returns (commands: seq<string>, r: Result<CertbotResult, Error>)
      ensures |commands| > 0
      ensures commands[0] == CertbotCommand(email, domain, isTestCert, DomainFlags(DomainList(apps, domain)))
      ensures var planned := PlannedCommands(commands[0], archiveExists, liveExists);
        |commands| <= |planned| && commands == planned[..|commands|]
      ensures forall i :: 0 <= i < |commands| - 1 ==> run(commands[i]).exitCode == 0
      ensures var last := commands[|commands| - 1];
        r.Failure? ==> (run(last).exitCode != 0
          && r.error == CalledProcessError(run(last).exitCode, last, run(last).output))
      ensures r.Success? ==> (commands == PlannedCommands(commands[0], archiveExists, liveExists)
        && run(commands[|commands| - 1]).exitCode == 0
        && r.value == CertbotResult(certbotCertificateFile, certbotKeyFile))
    {
      var domainArgs := AppsToCertbotDomainArgs(apps, domain);
      var command := CertbotCommand(email, domain, isTestCert, domainArgs);
      commands := [command];
      var outcome := run(command);
      if outcome.exitCode != 0 {
        r := Failure(CalledProcessError(outcome.exitCode, command, outcome.output));
        return;
      }
      if archiveExists {
        var chmod := Chmod755(ArchiveDir());
        commands := commands + [chmod];
        outcome := run(chmod);
        if outcome.exitCode != 0 {
          r := Failure(CalledProcessError(outcome.exitCode, chmod, outcome.output));
          return;
        }
      }
      if liveExists {
        var chmod := Chmod755(LiveDir());
        commands := commands + [chmod];
        outcome := run(chmod);
        if outcome.exitCode != 0 {
          r := Failure(CalledProcessError(outcome.exitCode, chmod, outcome.output));
          return;
        }
      }
      r := Success(CertbotResult(certbotCertificateFile, certbotKeyFile));
    }

    /**
     * `days_until_expiry` as written. The count is taken from `importTime`,
     * the clock reading when the module was imported, because the default
     * argument of `expiry_date_string_to_days` is evaluated once, at
     * definition time; the clock reading at the call, `callTime`, plays no
     * part in the result.
     */
    function DaysUntilExpiry(certFile: CertFile, importTime: DateTime, callTime: DateTime): (r: Result<int, Error>)
      requires ValidDateTime(importTime) && ValidDateTime(callTime)
      ensures certFile.Missing? ==> r == Success(0)
      ensures certFile.NotAFile? ==> r == Failure(IOError(certbotCertificateFile))
      ensures certFile.Unparsable? ==> r == Failure(CertificateError(certbotCertificateFile))
      ensures certFile.Pem? ==> (r.Success? <==> ParseGeneralizedTime(certFile.cert.notAfter).Some?)
      ensures certFile.Pem? && r.Success? ==>
        var diff := ToMicros(ParseGeneralizedTime(certFile.cert.notAfter).value) - ToMicros(importTime);
        r.value * DayMicros <= diff < r.value * DayMicros + DayMicros
    {
      DaysUntilExpiryAt(certFile, importTime)
    }

    /**
     * `days_until_expiry` as intended: 0 for a missing file, otherwise the
     * whole days from `now`, the moment of the call, to the notAfter instant.
     */
    function DaysUntilExpiryAt(certFile: CertFile, now: DateTime): (r: Result<int, Error>)
      requires ValidDateTime(now)
      ensures certFile.Missing? ==> r == Success(0)
      ensures certFile.NotAFile? ==> r == Failure(IOError(certbotCertificateFile))
      ensures certFile.Unparsable? ==> r == Failure(CertificateError(certbotCertificateFile))
      ensures certFile.Pem? ==> (r.Success? <==> ParseGeneralizedTime(certFile.cert.notAfter).Some?)
      ensures certFile.Pem? && r.Success? ==>
        var diff := ToMicros(ParseGeneralizedTime(certFile.cert.notAfter).value) - ToMicros(now);
        r.value * DayMicros <= diff < r.value * DayMicros + DayMicros
    {
      match certFile
      case Missing => Success(0)
      case NotAFile => Failure(IOError(certbotCertificateFile))
      case Unparsable => Failure(CertificateError(certbotCertificateFile))
      case Pem(cert) =>
        match ExpiryDateStringToDays(cert.notAfter, now)
        case None => Failure(ValueError(cert.notAfter))
        case Some(days) => Success(days)
    }

    /**
     * With the call-time clock the count falls by one for every day that
     * passes, so a certificate is eventually reported as due.
     */
    lemma DaysUntilExpiryAtAges(certFile: CertFile, now: DateTime, later: DateTime, k: int)
      requires ValidDateTime(now) && ValidDateTime(later)
      requires ToMicros(later) == ToMicros(now) + k * DayMicros
      requires DaysUntilExpiryAt(certFile, now).Success? && certFile.Pem?
      ensures DaysUntilExpiryAt(certFile, later) == Success(DaysUntilExpiryAt(certFile, now).value - k)
    {
      DaysShiftWithClock(certFile.cert.notAfter, now, later, k);
    }

    /**
     * The discrepancy: a certificate expiring ten days after the module was
     * imported is still reported as ten days from expiry at the instant it
     * expires, where the call-time count is 0.
     */
    lemma StaleImportClock()
      ensures var certFile := Pem(Certificate("20200111000000Z", []));
        var imported, called := DateTime(2020, 1, 1, 0, 0, 0, 0), DateTime(2020, 1, 11, 0, 0, 0, 0);
        && DaysUntilExpiry(certFile, imported, called) == Success(10)
        && DaysUntilExpiryAt(certFile, called) == Success(0)
    {
      ExpiryTenDaysAhead();
      ParseExample();
      ExpiryAtItsOwnInstant("20200111000000Z", DateTime(2020, 1, 11, 0, 0, 0, 0));
    }

    /**
     * `new_domains`: the required domains the certificate at the fixed path
     * does not list. A missing path or one that is not a regular file covers
     * nothing; a file OpenSSL cannot load raises.
     */
    method NewDomains(apps: seq<AppVersions>, domain: string, certFile: CertFile)
      returns (r: Result<set<string>, Error>)
      ensures r.Failure? <==> certFile.Unparsable?
      ensures r.Failure? ==> r.error == CertificateError(certbotCertificateFile)
      ensures r.Success? ==> forall x :: (x in r.value <==>
        (x == domain || exists a :: a in apps && x == AppDomain(a.app.id, domain))
          && x !in CoveredDomains(certFile))
      ensures r.Success? && !certFile.Pem? ==> forall x :: x in r.value <==> x in DomainList(apps, domain)
    {
      var currentDomains := DomainListSorted(apps, domain);
      if certFile.Unparsable? {
        return Failure(CertificateError(certbotCertificateFile));
      }
      var certDomains := CoveredDomains(certFile);
      NewDomainsOfApps(apps, domain, certDomains);
      r := Success(GetNewDomains(currentDomains, certDomains));
    }
  }
}
