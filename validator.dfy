/** Record validation and normalisation, and the pre-flight check of the environment. */
module Validator {
  import opened Wrappers
  import opened Text

  /** A listing record before normalisation: any of its six fields may be absent. */
  datatype RawProject = RawProject(
    name: Value, url: Value, description: Value, language: Value, stars: Value, todayStars: Value)

  /** A normalised trending record: all six fields are strings. */
  datatype Project = Project(
    name: string, url: string, description: string, language: string, stars: string, todayStars: string)

  const UnknownProject: string := "未知项目"
  const NoDescription: string := "暂无描述"
  const Unspecified: string := "未指定"
  const ZeroCount: string := "0"

  /** The six fields `validateProject` checks, in the order it checks them. */
  const RequiredFields: seq<string> := ["name", "url", "description", "language", "stars", "todayStars"]

  function Fields(p: RawProject): (fs: seq<Value>)
    ensures |fs| == |RequiredFields|
  {
    [p.name, p.url, p.description, p.language, p.stars, p.todayStars]
  }

  /** `!value && value !== ''`: an empty string counts as present, only an absent value is missing. */
  predicate IsMissing(v: Value) {
    !Truthy(v) && v != Str("")
  }

  function MissingAmong(names: seq<string>, values: seq<Value>): (r: seq<string>)
    requires |names| == |values|
    ensures |r| <= |names|
    ensures forall n :: n in r ==> n in names
    ensures r == [] <==> forall k :: 0 <= k < |values| ==> !IsMissing(values[k])
  {
    if names == [] then []
    else (if IsMissing(values[0]) then [names[0]] else []) + MissingAmong(names[1..], values[1..])
  }

  /** The names of the missing fields, in the order they are checked. */
  function MissingFields(p: RawProject): (names: seq<string>)
    ensures |names| <= 6
  {
    MissingAmong(RequiredFields, Fields(p))
  }

  /** `validateProject`: a record passes exactly when each of its six fields holds a string. */
  function ValidateProject(p: RawProject): (ok: bool)
    ensures ok <==> p.name.Str? && p.url.Str? && p.description.Str? && p.language.Str?
                    && p.stars.Str? && p.todayStars.Str?
  {
    var fs := Fields(p);
    assert fs[0] == p.name && fs[1] == p.url && fs[2] == p.description;
    assert fs[3] == p.language && fs[4] == p.stars && fs[5] == p.todayStars;
    MissingFields(p) == []
  }

  predicate IsBlank(s: string) {
    forall i :: 0 <= i < |s| ==> IsSpace(s[i])
  }

  /** `value?.trim() || sentinel` */
  function Clean(v: Value, sentinel: string): (r: string)
    ensures v.Undefined? || IsBlank(v.s) ==> r == sentinel
    ensures v.Str? && !IsBlank(v.s) ==> r == Trim(v.s) && r != ""
    ensures IsTrimmed(sentinel) ==> IsTrimmed(r)
  {
    if v.Undefined? then sentinel
    else
      TrimEmptyIffBlank(v.s);
      var t := Trim(v.s);
      if t == "" then sentinel else t
  }

  /** What `sanitizeProject` promises: every field trimmed, every field but `url` non-empty. */
  predicate IsNormal(q: Project) {
    && IsTrimmed(q.name) && IsTrimmed(q.url) && IsTrimmed(q.description)
    && IsTrimmed(q.language) && IsTrimmed(q.stars) && IsTrimmed(q.todayStars)
    && q.name != "" && q.description != "" && q.language != "" && q.stars != "" && q.todayStars != ""
  }

  /** `sanitizeProject`: trims every field and puts a sentinel where the trimmed field is empty. */
  function Sanitize(p: RawProject): (r: Project)
    ensures IsNormal(r)
    ensures p.name.Undefined? || (p.name.Str? && IsBlank(p.name.s)) ==> r.name == UnknownProject
    ensures p.name.Str? && !IsBlank(p.name.s) ==> r.name == Trim(p.name.s)
    ensures p.url.Undefined? || (p.url.Str? && IsBlank(p.url.s)) ==> r.url == ""
    ensures p.url.Str? && !IsBlank(p.url.s) ==> r.url == Trim(p.url.s)
    ensures p.description.Undefined? || (p.description.Str? && IsBlank(p.description.s)) ==> r.description == NoDescription
    ensures p.description.Str? && !IsBlank(p.description.s) ==> r.description == Trim(p.description.s)
    ensures p.language.Undefined? || (p.language.Str? && IsBlank(p.language.s)) ==> r.language == Unspecified
    ensures p.language.Str? && !IsBlank(p.language.s) ==> r.language == Trim(p.language.s)
    ensures p.stars.Undefined? || (p.stars.Str? && IsBlank(p.stars.s)) ==> r.stars == ZeroCount
    ensures p.stars.Str? && !IsBlank(p.stars.s) ==> r.stars == Trim(p.stars.s)
    ensures p.todayStars.Undefined? || (p.todayStars.Str? && IsBlank(p.todayStars.s)) ==> r.todayStars == ZeroCount
    ensures p.todayStars.Str? && !IsBlank(p.todayStars.s) ==> r.todayStars == Trim(p.todayStars.s)
  {
    SentinelsTrimmed();
    Project(
      Clean(p.name, UnknownProject), Clean(p.url, ""), Clean(p.description, NoDescription),
      Clean(p.language, Unspecified), Clean(p.stars, ZeroCount), Clean(p.todayStars, ZeroCount))
  }

  lemma SentinelsTrimmed()
    ensures IsTrimmed(UnknownProject) && IsTrimmed(NoDescription) && IsTrimmed(Unspecified)
    ensures IsTrimmed(ZeroCount) && IsTrimmed("")
  {
    assert UnknownProject[0] == '未' && UnknownProject[|UnknownProject| - 1] == '目';
    assert NoDescription[0] == '暂' && NoDescription[|NoDescription| - 1] == '述';
    assert Unspecified[0] == '未' && Unspecified[|Unspecified| - 1] == '定';
  }

  /** A normalised record read back as a raw record (every field a string). */
  function Raw(q: Project): RawProject {
    RawProject(Str(q.name), Str(q.url), Str(q.description), Str(q.language), Str(q.stars), Str(q.todayStars))
  }

  /** Normalised records are fixed points of `sanitizeProject`. */
  lemma SanitizeKeepsNormal(q: Project)
    requires IsNormal(q)
    ensures Sanitize(Raw(q)) == q
  {
    CleanKeeps(q.name, UnknownProject);
    CleanKeeps(q.url, "");
    CleanKeeps(q.description, NoDescription);
    CleanKeeps(q.language, Unspecified);
    CleanKeeps(q.stars, ZeroCount);
    CleanKeeps(q.todayStars, ZeroCount);
  }

  /** A trimmed value comes back unchanged, unless it is empty and the sentinel is not. */
  lemma CleanKeeps(s: string, sentinel: string)
    requires IsTrimmed(s) && (s != "" || sentinel == "")
    ensures Clean(Str(s), sentinel) == s
  {
    TrimOfTrimmed(s);
  }

  /** `sanitizeProject` is idempotent. */
  lemma SanitizeIdempotent(p: RawProject)
    ensures Sanitize(Raw(Sanitize(p))) == Sanitize(p)
  {
    SanitizeKeepsNormal(Sanitize(p));
  }

  // ---------------------------------------------------------------------------------------
  // Environment

  /** The process environment: variable name to value; an unset variable is absent. */
  type Env = map<string, string>

  const GeminiKey: string := "GEMINI_API_KEY"
  const ResendKey: string := "RESEND_API_KEY"
  const RecipientKey: string := "RECIPIENT_EMAIL"
  const RequiredEnv: seq<string> := [GeminiKey, ResendKey, RecipientKey]

  const MissingEnvPrefix: string := "缺少必需的环境变量: "
  const BadRecipient: string := "RECIPIENT_EMAIL 格式不正确"

  function Lookup(env: Env, name: string): Value {
    if name in env then Str(env[name]) else Undefined
  }

  /** The required variables that are unset or empty, in the order GEMINI, RESEND, RECIPIENT. */
  function MissingEnv(env: Env): (missing: seq<string>)
    ensures forall n :: n in missing <==> n in RequiredEnv && !Truthy(Lookup(env, n))
    ensures forall i, j :: 0 <= i < j < |missing| ==> Rank(missing[i]) < Rank(missing[j])
  {
    (if Truthy(Lookup(env, GeminiKey)) then [] else [GeminiKey])
    + (if Truthy(Lookup(env, ResendKey)) then [] else [ResendKey])
    + (if Truthy(Lookup(env, RecipientKey)) then [] else [RecipientKey])
  }

  /** Position of a required variable in the list `validateEnv` checks. */
  function Rank(name: string): nat {
    if name == GeminiKey then 0 else if name == ResendKey then 1 else 2
  }

  /** A part of an address: non-empty, without white space or '@' (the class `[^\s@]+`). */
  predicate IsAddressPart(s: string) {
    s != [] && forall i :: 0 <= i < |s| ==> !IsSpace(s[i]) && s[i] != '@'
  }

  /**
   * The regular expression `^[^\s@]+@[^\s@]+\.[^\s@]+$`, read as: three address parts,
   * the first two joined by '@', the last two by '.'.
   */
  ghost predicate MatchesEmailPattern(s: string) {
    exists i, j :: 0 < i && i + 1 < j < |s| - 1 && s[i] == '@' && s[j] == '.'
      && IsAddressPart(s[..i]) && IsAddressPart(s[i + 1..j]) && IsAddressPart(s[j + 1..])
  }

  /**
   * The email shape test as a decision: no white space, exactly one '@' with a non-empty local
   * part, and a '.' in the domain that is neither its first nor its last character.
   */
  predicate EmailShaped(s: string) {
    var at := IndexOf(s, '@');
    && at > 0
    && (forall k :: 0 <= k < |s| ==> !IsSpace(s[k]))
    && '@' !in s[at + 1..]
    && (exists k :: at + 1 < k < |s| - 1 && s[k] == '.')
  }

  lemma ShapedImpliesPattern(s: string)
    requires EmailShaped(s)
    ensures MatchesEmailPattern(s)
  {
    var at := IndexOf(s, '@');
    var j :| at + 1 < j < |s| - 1 && s[j] == '.';
    var d := s[at + 1..];
    assert s[at + 1..j] == d[..j - at - 1];
    assert s[j + 1..] == d[j - at..];
    assert IsAddressPart(s[..at]);
    assert IsAddressPart(s[at + 1..j]);
    assert IsAddressPart(s[j + 1..]);
  }

  lemma PatternImpliesShaped(s: string, i: nat, j: nat)
    requires 0 < i && i + 1 < j < |s| - 1 && s[i] == '@' && s[j] == '.'
    requires IsAddressPart(s[..i]) && IsAddressPart(s[i + 1..j]) && IsAddressPart(s[j + 1..])
    ensures EmailShaped(s)
  {
    IndexOfIs(s, '@', i);
    assert s[i + 1..] == s[i + 1..j] + [s[j]] + s[j + 1..];
    forall k | 0 <= k < |s| ensures !IsSpace(s[k]) {
      if k < i {
        assert s[k] == s[..i][k];
      } else if i < k < j {
        assert s[k] == s[i + 1..j][k - i - 1];
      } else if j < k {
        assert s[k] == s[j + 1..][k - j - 1];
      }
    }
  }

  /** The decision agrees with the regular expression, in both directions. */
  lemma EmailShapedMatchesPattern(s: string)
    ensures EmailShaped(s) <==> MatchesEmailPattern(s)
  {
    if EmailShaped(s) {
      ShapedImpliesPattern(s);
    }
    if MatchesEmailPattern(s) {
      var i, j :| 0 < i && i + 1 < j < |s| - 1 && s[i] == '@' && s[j] == '.'
        && IsAddressPart(s[..i]) && IsAddressPart(s[i + 1..j]) && IsAddressPart(s[j + 1..]);
      PatternImpliesShaped(s, i, j);
    }
  }

  /** A comma-separated list in which two entries hold an '@' never has the email shape. */
  lemma TwoAddressesRejected(x: string, y: string)
    requires '@' in x && '@' in y
    ensures !EmailShaped(x + "," + y)
  {
    var s := x + "," + y;
    var at := IndexOf(s, '@');
    var p :| 0 <= p < |y| && y[p] == '@';
    var q :| 0 <= q < |x| && x[q] == '@';
    assert s[q] == '@';
    assert at <= q;
    assert s[at + 1..][|x| + p - at] == '@';
  }

  /** `validateEnv`: first every missing variable in one error, then the recipient's shape. */
  function ValidateEnv(env: Env): (r: Result<(), string>)
    ensures MissingEnv(env) != [] ==> r == Failure(MissingEnvPrefix + Join(MissingEnv(env), ", "))
    ensures MissingEnv(env) == [] && r.Failure? ==> r.error == BadRecipient
    ensures r.Success? <==>
              (forall n :: n in RequiredEnv ==> Truthy(Lookup(env, n)))
              && MatchesEmailPattern(env[RecipientKey])
  {
    var missing := MissingEnv(env);
    if missing != [] then
      assert missing[0] in RequiredEnv;
      Failure(MissingEnvPrefix + Join(missing, ", "))
    else
      assert RecipientKey in env by { assert Truthy(Lookup(env, RecipientKey)); }
      EmailShapedMatchesPattern(env[RecipientKey]);
      if EmailShaped(env[RecipientKey]) then Success(()) else Failure(BadRecipient)
  }
}
