/** `extract_contact_info`: e-mail addresses, phone numbers and social
    handles found in a page's cleaned text by regular-expression search. */
module ContactExtractor {
  import opened Results
  import opened Ordering

  const EMAIL_PATTERN: string := @"[a-zA-Z0-9._%+-]+@[a-zA-Z0-9.-]+\.[a-zA-Z]{2,}"

  /** Two capturing groups (the optional country prefix and the optional area
      code), so `re.findall` yields one pair of strings per match. */
  const PHONE_PATTERN: string := @"(\+?1?[-.\s]?)?(\(?\d{3}\)?[-.\s]?)?\d{3}[-.\s]?\d{4}"

  /** The number of capturing groups in `PHONE_PATTERN`. */
  const PHONE_GROUPS: nat := 2

  /** The platforms searched for and their patterns, one group each (the handle). */
  const SOCIAL_PATTERNS: seq<(string, string)> := [
    ("linkedin", @"linkedin\.com/in/([a-zA-Z0-9\-]+)"),
    ("github", @"github\.com/([a-zA-Z0-9\-]+)"),
    ("twitter", @"twitter\.com/([a-zA-Z0-9\-_]+)"),
    ("instagram", @"instagram\.com/([a-zA-Z0-9\-_.]+)"),
    ("youtube", @"youtube\.com/@?([a-zA-Z0-9\-_]+)"),
    ("medium", @"medium\.com/@?([a-zA-Z0-9\-_.]+)")
  ]

  const PLATFORMS: set<string> := {"linkedin", "github", "twitter", "instagram", "youtube", "medium"}

  /** The `contact` dictionary of one page. The lists come from `list(set(..))`,
      whose order Python leaves to hashing; the model keeps them ascending. */
  datatype ContactInfo = ContactInfo(emails: seq<string>, phones: seq<string>, social: map<string, seq<string>>)

  /** The `IndexError` raised when the phone comprehension reads group `index`
      of a match tuple that has fewer groups. */
  datatype ContactError = TupleIndexOutOfRange(tuple: seq<string>, index: nat)

  /** `[m[0] + m[1] + m[2] for m in phone_matches if m]`, evaluated left to
      right: the first non-empty tuple with fewer than three groups raises. */
  function PhoneStrings(matches: seq<seq<string>>): (r: Result<seq<string>, ContactError>)
    ensures r.Failure? <==> exists i :: 0 <= i < |matches| && 0 < |matches[i]| < 3
    ensures r.Failure? ==> 0 < |r.error.tuple| < 3 && r.error.index == |r.error.tuple|
    ensures r.Success? ==> |r.value| <= |matches|
    ensures r.Success? ==> forall s :: s in r.value <==>
      exists i :: 0 <= i < |matches| && |matches[i]| >= 3 && s == matches[i][0] + matches[i][1] + matches[i][2]
  {
    if |matches| == 0 then Success([])
    else
      var m := matches[0];
      var rest := PhoneStrings(matches[1..]);
      assert forall i :: 0 < i < |matches| ==> matches[i] == matches[1..][i - 1];
      if |m| == 0 then rest
      else if |m| < 3 then Failure(TupleIndexOutOfRange(m, |m|))
      else if rest.Failure? then rest
      else Success([m[0] + m[1] + m[2]] + rest.value)
  }

  /** The phone list of a page, or the error the comprehension raises. */
  function Phones(matches: seq<seq<string>>): (r: Result<seq<string>, ContactError>)
    ensures r.Failure? <==> exists i :: 0 <= i < |matches| && 0 < |matches[i]| < 3
    ensures r.Success? ==> StrictlySorted(r.value)
    ensures r.Success? ==> forall s :: s in r.value <==>
      exists i :: 0 <= i < |matches| && |matches[i]| >= 3 && s == matches[i][0] + matches[i][1] + matches[i][2]
  {
    match PhoneStrings(matches)
    case Failure(e) => Failure(e)
    case Success(phones) => Success(SortedUnique(phones))
  }

  /** The `social` dictionary after the loop has run over `table`: a platform
      is added, with its deduplicated handles, only when its pattern matched. */
  function Social(table: seq<(string, string)>, text: string, findAll: (string, string) -> seq<string>)
    : (social: map<string, seq<string>>)
    ensures forall p :: p in social ==> exists i :: 0 <= i < |table| && table[i].0 == p
    ensures forall p :: p in social ==> |social[p]| > 0 && StrictlySorted(social[p])
  {
    if |table| == 0 then map[]
    else
      var n := |table| - 1;
      var before := Social(table[..n], text, findAll);
      assert forall i :: 0 <= i < n ==> table[..n][i] == table[i];
      var (platform, pattern) := table[n];
      var matches := findAll(pattern, text);
      if |matches| > 0 then before[platform := SortedUnique(matches)] else before
  }

  /** `extract_contact_info(text)`, given the library's regular-expression
      search as `findAll` (patterns with at most one group) and `findGroups`
      (patterns with several groups). */
  function ExtractContactInfo(text: string, findAll: (string, string) -> seq<string>,
                              findGroups: (string, string) -> seq<seq<string>>)
    : (r: Result<ContactInfo, ContactError>)
    ensures r.Failure? <==> exists m :: m in findGroups(PHONE_PATTERN, text) && 0 < |m| < 3
  {
    var emails := SortedUnique(findAll(EMAIL_PATTERN, text));
    var phoneMatches := findGroups(PHONE_PATTERN, text);
    var phones := Phones(phoneMatches);
    assert phones.Failure? <==> exists m :: m in phoneMatches && 0 < |m| < 3 by {
      if exists m :: m in phoneMatches && 0 < |m| < 3 {
        var m :| m in phoneMatches && 0 < |m| < 3;
        var i :| 0 <= i < |phoneMatches| && phoneMatches[i] == m;
      }
    }
    match phones
    case Failure(e) => Failure(e)
    case Success(ps) => Success(ContactInfo(emails, ps, Social(SOCIAL_PATTERNS, text, findAll)))
  }

  lemma PlatformsDistinct()
    ensures forall i, j :: 0 <= i < j < |SOCIAL_PATTERNS| ==> SOCIAL_PATTERNS[i].0 != SOCIAL_PATTERNS[j].0
  {
  }

  lemma TablePlatforms()
    ensures forall i :: 0 <= i < |SOCIAL_PATTERNS| ==> SOCIAL_PATTERNS[i].0 in PLATFORMS
    ensures forall p :: p in PLATFORMS ==> exists i :: 0 <= i < |SOCIAL_PATTERNS| && SOCIAL_PATTERNS[i].0 == p
  {
    assert SOCIAL_PATTERNS[0].0 == "linkedin";
    assert SOCIAL_PATTERNS[1].0 == "github";
    assert SOCIAL_PATTERNS[2].0 == "twitter";
    assert SOCIAL_PATTERNS[3].0 == "instagram";
    assert SOCIAL_PATTERNS[4].0 == "youtube";
    assert SOCIAL_PATTERNS[5].0 == "medium";
  }

  /** With distinct platform names, each platform of the table is a key
      exactly when its pattern matched, and its handles are the matches,
      without duplicates. */
  lemma {:induction false} SocialEntries(table: seq<(string, string)>, text: string,
                                         findAll: (string, string) -> seq<string>, i: nat)
    requires forall j, k :: 0 <= j < k < |table| ==> table[j].0 != table[k].0
    requires i < |table|
    ensures table[i].0 in Social(table, text, findAll) <==> |findAll(table[i].1, text)| > 0
    ensures table[i].0 in Social(table, text, findAll) ==>
      forall u :: u in Social(table, text, findAll)[table[i].0] <==> u in findAll(table[i].1, text)
  {
    var n := |table| - 1;
    if i < n {
      assert table[..n][i] == table[i];
      SocialEntries(table[..n], text, findAll, i);
      assert table[n].0 != table[i].0;
    }
  }

  /** The contact record of a page: no list has duplicates, each holds exactly
      what the search found, and the social keys are the platforms whose
      pattern matched, all among the six known platforms. */
  lemma ContactInfoShape(text: string, findAll: (string, string) -> seq<string>,
                         findGroups: (string, string) -> seq<seq<string>>)
    requires ExtractContactInfo(text, findAll, findGroups).Success?
    ensures var c := ExtractContactInfo(text, findAll, findGroups).value;
      && NoDuplicates(c.emails) && NoDuplicates(c.phones)
      && (forall u :: u in c.emails <==> u in findAll(EMAIL_PATTERN, text))
      && (var ms := findGroups(PHONE_PATTERN, text);
          forall s :: s in c.phones <==>
            exists i :: 0 <= i < |ms| && |ms[i]| >= 3 && s == ms[i][0] + ms[i][1] + ms[i][2])
      && c.social.Keys <= PLATFORMS
      && (forall p :: p in c.social ==> NoDuplicates(c.social[p]))
      && (forall i :: 0 <= i < |SOCIAL_PATTERNS| ==>
            (SOCIAL_PATTERNS[i].0 in c.social <==> |findAll(SOCIAL_PATTERNS[i].1, text)| > 0))
      && (forall i, u :: 0 <= i < |SOCIAL_PATTERNS| && SOCIAL_PATTERNS[i].0 in c.social ==>
            (u in c.social[SOCIAL_PATTERNS[i].0] <==> u in findAll(SOCIAL_PATTERNS[i].1, text)))
  {
    var c := ExtractContactInfo(text, findAll, findGroups).value;
    SortedHasNoDuplicates(c.emails);
    SortedHasNoDuplicates(c.phones);
    TablePlatforms();
    forall p | p in c.social ensures NoDuplicates(c.social[p]) {
      SortedHasNoDuplicates(c.social[p]);
    }
    PlatformsDistinct();
    forall i | 0 <= i < |SOCIAL_PATTERNS|
      ensures SOCIAL_PATTERNS[i].0 in c.social <==> |findAll(SOCIAL_PATTERNS[i].1, text)| > 0
      ensures SOCIAL_PATTERNS[i].0 in c.social ==>
        forall u :: u in c.social[SOCIAL_PATTERNS[i].0] <==> u in findAll(SOCIAL_PATTERNS[i].1, text)
    {
      SocialEntries(SOCIAL_PATTERNS, text, findAll, i);
    }
  }

  /** A text with no phone-pattern match yields an empty phone list. */
  lemma NoPhoneMatchNoPhones(text: string, findAll: (string, string) -> seq<string>,
                             findGroups: (string, string) -> seq<seq<string>>)
    requires |findGroups(PHONE_PATTERN, text)| == 0
    ensures ExtractContactInfo(text, findAll, findGroups).Success?
    ensures ExtractContactInfo(text, findAll, findGroups).value.phones == []
  {
  }

  /** Since the phone pattern has two groups, every match is a pair, and the
      comprehension's `m[2]` fails on the first one: the extraction fails
      exactly when the text contains a phone-like match. */
  lemma PhoneMatchFails(text: string, findAll: (string, string) -> seq<string>,
                        findGroups: (string, string) -> seq<seq<string>>)
    requires forall m :: m in findGroups(PHONE_PATTERN, text) ==> |m| == PHONE_GROUPS
    ensures ExtractContactInfo(text, findAll, findGroups).Failure? <==> |findGroups(PHONE_PATTERN, text)| > 0
    ensures ExtractContactInfo(text, findAll, findGroups).Failure? ==>
      ExtractContactInfo(text, findAll, findGroups).error.index == 2
  {
    if |findGroups(PHONE_PATTERN, text)| > 0 {
      assert findGroups(PHONE_PATTERN, text)[0] in findGroups(PHONE_PATTERN, text);
    }
  }
}
