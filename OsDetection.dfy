/**
  The visitor's operating-system label that the page sends for analytics
  (`detectOS` in app/page.js). The browser globals it reads become three
  inputs: the user-agent string `ua`, whether `window.MSStream` is truthy,
  and `navigator.platform` (the empty string when it is falsy).

  The classification is an ordered chain of first-match tests; the order
  is what decides a user agent that mentions several systems.
 */
module OsDetection {
  import opened Wrappers
  import opened Text

  /** The outcome of the classification. `Platform` carries the platform
      string the function falls back to, kept apart from the six fixed
      labels so that a platform string that happens to read "Windows" is
      not confused with the Windows rule. */
  datatype Os = WindowsPhone | Windows | Android | IOS | MacOS | Linux
              | Platform(name: string) | Unknown

  /** The string the source returns for each outcome. */
  function Label(os: Os): string {
    match os
    case WindowsPhone => "Windows Phone"
    case Windows => "Windows"
    case Android => "Android"
    case IOS => "iOS"
    case MacOS => "Mac OS"
    case Linux => "Linux"
    case Platform(name) => name
    case Unknown => "Unknown"
  }

  /** The device test: one of three words, with case. */
  predicate NamesAppleDevice(ua: string) {
    Contains(ua, "iPad") || Contains(ua, "iPhone") || Contains(ua, "iPod")
  }

  /** detectOS, test by test in the source's order. */
  function DetectOS(ua: string, msStream: bool, platform: string): (os: Os)
    ensures os.Platform? ==> os.name == platform && platform != ""
  {
    if ContainsIgnoringCase(ua, "windows phone") then WindowsPhone
    else if ContainsIgnoringCase(ua, "windows") then Windows
    else if ContainsIgnoringCase(ua, "android") then Android
    else if NamesAppleDevice(ua) && !msStream then IOS
    else if ContainsIgnoringCase(ua, "Mac") then MacOS
    else if ContainsIgnoringCase(ua, "Linux") then Linux
    else if platform != "" then Platform(platform)
    else Unknown
  }

  /** The string detectOS returns (what the page posts as `os`). */
  function DetectOSLabel(ua: string, msStream: bool, platform: string): (answer: string)
    ensures answer in {"Windows Phone", "Windows", "Android", "iOS", "Mac OS", "Linux", "Unknown"}
            || (answer == platform && platform != "")
  {
    Label(DetectOS(ua, msStream, platform))
  }

  // ---------------------------------------------------------------------
  // An independent statement of the same classification: a rule table
  // read first-match-first.
  // ---------------------------------------------------------------------

  datatype Matcher =
    | IgnoringCase(word: string)     // one word, in any letter case
    | ExactAnyOf(words: seq<string>) // any of several words, with case

  datatype Rule = Rule(matcher: Matcher, blockedByMsStream: bool, os: Os)

  const Rules: seq<Rule> := [
    Rule(IgnoringCase("windows phone"), false, WindowsPhone),
    Rule(IgnoringCase("windows"), false, Windows),
    Rule(IgnoringCase("android"), false, Android),
    Rule(ExactAnyOf(["iPad", "iPhone", "iPod"]), true, IOS),
    Rule(IgnoringCase("Mac"), false, MacOS),
    Rule(IgnoringCase("Linux"), false, Linux)
  ]

  predicate AnyOccurs(ua: string, words: seq<string>) {
    exists w :: w in words && Contains(ua, w)
  }

  predicate Fires(r: Rule, ua: string, msStream: bool) {
    && (match r.matcher
        case IgnoringCase(word) => ContainsIgnoringCase(ua, word)
        case ExactAnyOf(words) => AnyOccurs(ua, words))
    && !(r.blockedByMsStream && msStream)
  }

  /** The outcome of the first rule that fires, if any. */
  function FirstMatch(rules: seq<Rule>, ua: string, msStream: bool): Option<Os> {
    if rules == [] then None
    else if Fires(rules[0], ua, msStream) then Some(rules[0].os)
    else FirstMatch(rules[1..], ua, msStream)
  }

  /** FirstMatch finds nothing exactly when no rule fires, and otherwise
      answers with the outcome of a rule that fires after none before it. */
  lemma {:induction false} FirstMatchIsFirst(rules: seq<Rule>, ua: string, msStream: bool)
    ensures FirstMatch(rules, ua, msStream).None? <==> forall k :: 0 <= k < |rules| ==> !Fires(rules[k], ua, msStream)
    ensures FirstMatch(rules, ua, msStream).Some? ==>
              exists k :: 0 <= k < |rules| && Fires(rules[k], ua, msStream)
                          && rules[k].os == FirstMatch(rules, ua, msStream).value
                          && forall e :: 0 <= e < k ==> !Fires(rules[e], ua, msStream)
  {
    if rules != [] && !Fires(rules[0], ua, msStream) {
      FirstMatchIsFirst(rules[1..], ua, msStream);
      assert forall k :: 1 <= k < |rules| ==> rules[1..][k - 1] == rules[k];
      if FirstMatch(rules, ua, msStream).Some? {
        var k :| 0 <= k < |rules[1..]| && Fires(rules[1..][k], ua, msStream)
                 && rules[1..][k].os == FirstMatch(rules, ua, msStream).value
                 && forall e :: 0 <= e < k ==> !Fires(rules[1..][e], ua, msStream);
        assert Fires(rules[k + 1], ua, msStream);
      }
    } else if rules != [] {
      assert Fires(rules[0], ua, msStream);
    }
  }

  function ClassifyByRules(ua: string, msStream: bool, platform: string): Os {
    match FirstMatch(Rules, ua, msStream)
    case Some(os) => os
    case None => if platform != "" then Platform(platform) else Unknown
  }

  /** The chain of tests in detectOS is the rule table read in order. */
  lemma DetectOSFollowsRuleTable(ua: string, msStream: bool, platform: string)
    ensures DetectOS(ua, msStream, platform) == ClassifyByRules(ua, msStream, platform)
  {
    var apple := ["iPad", "iPhone", "iPod"];
    assert AnyOccurs(ua, apple) <==> NamesAppleDevice(ua) by {
      assert apple[0] == "iPad" && apple[1] == "iPhone" && apple[2] == "iPod";
    }
    var rs := Rules;
    assert FirstMatch(rs, ua, msStream)
           == if Fires(rs[0], ua, msStream) then Some(WindowsPhone) else FirstMatch(rs[1..], ua, msStream);
    rs := rs[1..];
    assert FirstMatch(rs, ua, msStream)
           == if Fires(rs[0], ua, msStream) then Some(Windows) else FirstMatch(rs[1..], ua, msStream);
    rs := rs[1..];
    assert FirstMatch(rs, ua, msStream)
           == if Fires(rs[0], ua, msStream) then Some(Android) else FirstMatch(rs[1..], ua, msStream);
    rs := rs[1..];
    assert FirstMatch(rs, ua, msStream)
           == if Fires(rs[0], ua, msStream) then Some(IOS) else FirstMatch(rs[1..], ua, msStream);
    rs := rs[1..];
    assert FirstMatch(rs, ua, msStream)
           == if Fires(rs[0], ua, msStream) then Some(MacOS) else FirstMatch(rs[1..], ua, msStream);
    rs := rs[1..];
    assert FirstMatch(rs, ua, msStream)
           == if Fires(rs[0], ua, msStream) then Some(Linux) else FirstMatch(rs[1..], ua, msStream);
    assert rs[1..] == [];
  }

  // ---------------------------------------------------------------------
  // Rule priority
  // ---------------------------------------------------------------------

  lemma WindowsPhoneMentionsWindows(ua: string)
    requires ContainsIgnoringCase(ua, "windows phone")
    ensures ContainsIgnoringCase(ua, "windows")
  {
    assert Lower("windows phone") == "windows phone";
    assert Lower("windows") == "windows";
    assert StartsWith("windows phone", "windows");
    ContainsIgnoringCaseTransitive(ua, "windows phone", "windows");
  }

  /** "Windows Phone" is reported exactly for the user agents that mention
      it, in any letter case, although every one of them also mentions
      "windows". */
  lemma WindowsPhoneRule(ua: string, msStream: bool, platform: string)
    ensures DetectOS(ua, msStream, platform) == WindowsPhone
            <==> ContainsIgnoringCase(ua, "windows phone")
    ensures ContainsIgnoringCase(ua, "windows phone") ==> ContainsIgnoringCase(ua, "windows")
  {
    if ContainsIgnoringCase(ua, "windows phone") {
      WindowsPhoneMentionsWindows(ua);
    }
  }

  /** "Windows" wins over every later rule: it is reported exactly when the
      user agent mentions "windows" but not "windows phone", whatever
      else (Android, Mac, Linux) it mentions. */
  lemma WindowsRule(ua: string, msStream: bool, platform: string)
    ensures DetectOS(ua, msStream, platform) == Windows
            <==> ContainsIgnoringCase(ua, "windows") && !ContainsIgnoringCase(ua, "windows phone")
  {
  }

  /** "Android" is reported exactly when the user agent mentions "android"
      and not "windows" (so neither Windows rule applies), even though an
      Android user agent normally also mentions Linux. */
  lemma AndroidRule(ua: string, msStream: bool, platform: string)
    ensures DetectOS(ua, msStream, platform) == Android
            <==> ContainsIgnoringCase(ua, "android") && !ContainsIgnoringCase(ua, "windows")
  {
    if ContainsIgnoringCase(ua, "windows phone") {
      WindowsPhoneMentionsWindows(ua);
    }
  }

  /** "iOS" needs one of the device names in its exact case and no
      `MSStream`; nothing mentioning "windows" or "android" gets there. */
  lemma IOSRule(ua: string, msStream: bool, platform: string)
    ensures DetectOS(ua, msStream, platform) == IOS
            <==> NamesAppleDevice(ua) && !msStream
                 && !ContainsIgnoringCase(ua, "windows") && !ContainsIgnoringCase(ua, "android")
  {
    if ContainsIgnoringCase(ua, "windows phone") {
      WindowsPhoneMentionsWindows(ua);
    }
  }

  /** "Mac OS" is reported exactly when the user agent mentions "mac" in any
      case and none of the four earlier rules fires. */
  lemma MacOSRule(ua: string, msStream: bool, platform: string)
    ensures DetectOS(ua, msStream, platform) == MacOS
            <==> ContainsIgnoringCase(ua, "Mac")
                 && !ContainsIgnoringCase(ua, "windows") && !ContainsIgnoringCase(ua, "android")
                 && !(NamesAppleDevice(ua) && !msStream)
  {
    if ContainsIgnoringCase(ua, "windows phone") {
      WindowsPhoneMentionsWindows(ua);
    }
  }

  /** "Linux" is reported exactly when the user agent mentions "linux" in
      any case and none of the five earlier rules fires: an Android user
      agent, which also mentions Linux, is never reported as Linux. */
  lemma LinuxRule(ua: string, msStream: bool, platform: string)
    ensures DetectOS(ua, msStream, platform) == Linux
            <==> ContainsIgnoringCase(ua, "Linux")
                 && !ContainsIgnoringCase(ua, "windows") && !ContainsIgnoringCase(ua, "android")
                 && !(NamesAppleDevice(ua) && !msStream) && !ContainsIgnoringCase(ua, "Mac")
  {
    if ContainsIgnoringCase(ua, "windows phone") {
      WindowsPhoneMentionsWindows(ua);
    }
  }

  /** An Apple device name with `MSStream` set, or in another letter case,
      is not reported as iOS: such a user agent falls through to the Mac
      and Linux tests. */
  lemma AppleDeviceFallsThrough(ua: string, msStream: bool, platform: string)
    requires !ContainsIgnoringCase(ua, "windows") && !ContainsIgnoringCase(ua, "android")
    requires !NamesAppleDevice(ua) || msStream
    ensures DetectOS(ua, msStream, platform)
            == if ContainsIgnoringCase(ua, "Mac") then MacOS
               else if ContainsIgnoringCase(ua, "Linux") then Linux
               else if platform != "" then Platform(platform) else Unknown
  {
    if ContainsIgnoringCase(ua, "windows phone") {
      WindowsPhoneMentionsWindows(ua);
    }
  }

  /** No rule fires exactly when the answer comes from the platform string,
      or is "Unknown" when that is empty. */
  lemma FallbackRule(ua: string, msStream: bool, platform: string)
    ensures (DetectOS(ua, msStream, platform) == Platform(platform)
             || DetectOS(ua, msStream, platform) == Unknown)
            <==> FirstMatch(Rules, ua, msStream).None?
    ensures FirstMatch(Rules, ua, msStream).None? ==>
              DetectOSLabel(ua, msStream, platform) == if platform != "" then platform else "Unknown"
  {
    DetectOSFollowsRuleTable(ua, msStream, platform);
    FirstMatchIsFirst(Rules, ua, msStream);
  }

  // ---------------------------------------------------------------------
  // Typical user agents
  // ---------------------------------------------------------------------

  const IPhoneUa := "iPhone; like Mac OS X"

  const IPhoneUaLowered := "iphone; like mac os x"

  lemma IPhoneUaLowerCase()
    ensures Lower(IPhoneUa) == IPhoneUaLowered
  {
  }

  lemma IPhoneUaMentionsMac()
    ensures ContainsIgnoringCase(IPhoneUa, "Mac")
  {
    IPhoneUaLowerCase();
    assert Lower("Mac") == "mac";
    assert IPhoneUaLowered[13..16] == "mac";
    assert OccursAt(IPhoneUaLowered, "mac", 13);
    ContainsIffOccurs(IPhoneUaLowered, "mac");
  }

  lemma IPhoneUaNamesDevice()
    ensures NamesAppleDevice(IPhoneUa)
  {
    assert IPhoneUa[..6] == "iPhone";
  }

  lemma IPhoneUaLacksWindows()
    ensures !ContainsIgnoringCase(IPhoneUa, "windows")
  {
    IPhoneUaLowerCase();
    assert Lower("windows")[0] == 'w';
    MissingCharNotContainedIgnoringCase(IPhoneUa, "windows", 'w');
  }

  lemma IPhoneUaLacksAndroid()
    ensures !ContainsIgnoringCase(IPhoneUa, "android")
  {
    IPhoneUaLowerCase();
    assert Lower("android")[2] == 'd';
    MissingCharNotContainedIgnoringCase(IPhoneUa, "android", 'd');
  }

  /** An iPhone user agent mentions "Mac OS X", yet is classified as iOS
      because the device test comes first; with `MSStream` set it is
      classified as Mac OS instead. */
  lemma IPhoneUserAgent()
    ensures DetectOS(IPhoneUa, false, "") == IOS
    ensures DetectOS(IPhoneUa, true, "") == MacOS
  {
    IPhoneUaMentionsMac();
    IPhoneUaNamesDevice();
    IPhoneUaLacksWindows();
    IPhoneUaLacksAndroid();
    IOSRule(IPhoneUa, false, "");
    AppleDeviceFallsThrough(IPhoneUa, true, "");
  }
}
