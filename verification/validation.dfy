/** The zod schemas of `src/routes/auth.ts`: the password and username
    rules and the object schema that combines them with an email check.
    Zod runs every check of a string schema and every refinement after it
    (a failed length check marks the result dirty, it does not abort), so
    each field reports all of its violated rules, in the order the chain
    lists them. Lengths are JavaScript lengths, in UTF-16 code units. The
    email grammar of `.email()` is a parameter.
 */
module Validation {
  import opened JsRuntime
  import opened RegexClass

  const PasswordTooShort := "At least 8 characters long"
  const PasswordTooLong := "Password can not exceed 20 characters"
  const NoUppercase := "At least one uppercase"
  const NoLowercase := "At least one lowercase"
  const NoNumber := "At least one number"
  const NoSpecial := "At least one special character"

  const UsernameTooShort := "Username must be at least 4 character long"
  const UsernameTooLong := "Username can not exceed 20 characters"
  const UsernameBadChars := "Username can only contain letters, numbers, and underscores."

  const InvalidEmail := "Invalid email"

  /** The characters the special-character rule accepts. */
  const SpecialChars := "#?!@$%^&*-"

  predicate HasUpper(s: string) { exists i | 0 <= i < |s| :: 'A' <= s[i] <= 'Z' }
  predicate HasLower(s: string) { exists i | 0 <= i < |s| :: 'a' <= s[i] <= 'z' }
  predicate HasDigit(s: string) { exists i | 0 <= i < |s| :: '0' <= s[i] <= '9' }
  predicate HasSpecial(s: string) { exists i | 0 <= i < |s| :: s[i] in SpecialChars }

  predicate IsWordChar(c: char) {
    ('a' <= c <= 'z') || ('A' <= c <= 'Z') || ('0' <= c <= '9') || c == '_'
  }

  /** All six password rules, stated directly on the characters. */
  predicate StrongPassword(p: string) {
    8 <= Utf16Length(p) <= 20 && HasUpper(p) && HasLower(p) && HasDigit(p) && HasSpecial(p)
  }

  /** The rules of `passwordValidationSchema`, in the order the chain lists them. */
  datatype PasswordRule = MinLength | MaxLength | Uppercase | Lowercase | Number | Special

  function PasswordMessage(rule: PasswordRule): string {
    match rule
    case MinLength => PasswordTooShort
    case MaxLength => PasswordTooLong
    case Uppercase => NoUppercase
    case Lowercase => NoLowercase
    case Number => NoNumber
    case Special => NoSpecial
  }

  function PasswordRank(rule: PasswordRule): nat {
    match rule
    case MinLength => 0
    case MaxLength => 1
    case Uppercase => 2
    case Lowercase => 3
    case Number => 4
    case Special => 5
  }

  /** The rules of `usernameValidationSchema`, in the order the chain lists them. */
  datatype UsernameRule = ShortName | LongName | NameChars

  function UsernameMessage(rule: UsernameRule): string {
    match rule
    case ShortName => UsernameTooShort
    case LongName => UsernameTooLong
    case NameChars => UsernameBadChars
  }

  function UsernameRank(rule: UsernameRule): nat {
    match rule
    case ShortName => 0
    case LongName => 1
    case NameChars => 2
  }

  /** The rules of `chain` that `fails`, in chain order. Zod keeps checking
      after a failure, so this is every failing rule, not just the first. */
  function Failing<R(!new)>(chain: seq<R>, fails: R -> bool, rank: R -> nat): (v: seq<R>)
    ensures forall r :: r in v <==> r in chain && fails(r)
    ensures (forall i, j | 0 <= i < j < |chain| :: rank(chain[i]) < rank(chain[j])) ==>
              forall i, j | 0 <= i < j < |v| :: rank(v[i]) < rank(v[j])
  {
    if |chain| == 0 then []
    else
      var rest := Failing(chain[1..], fails, rank);
      assert forall r | r in chain[1..] :: r in chain;
      HeadRanksFirst(chain, rest, rank);
      if fails(chain[0]) then [chain[0]] + rest else rest
  }

  /** In a chain of strictly increasing rank, the head outranks nothing after it. */
  lemma HeadRanksFirst<R>(chain: seq<R>, rest: seq<R>, rank: R -> nat)
    requires |chain| > 0
    requires forall r | r in rest :: r in chain[1..]
    ensures (forall i, j | 0 <= i < j < |chain| :: rank(chain[i]) < rank(chain[j])) ==>
              forall r | r in rest :: rank(chain[0]) < rank(r)
  {
    if forall i, j | 0 <= i < j < |chain| :: rank(chain[i]) < rank(chain[j]) {
      forall r | r in rest ensures rank(chain[0]) < rank(r) {
        var j :| 0 <= j < |chain[1..]| && chain[1..][j] == r;
        assert chain[j + 1] == r;
      }
    }
  }

  /** `/[A-Z]/.test(p)` holds exactly when `p` has an upper-case letter. */
  lemma UppercaseTest(p: string)
    ensures Test(ParseClass("A-Z"), p) <==> HasUpper(p)
  {
    forall i | 0 <= i < |p| ensures InClass(ParseClass("A-Z"), p[i]) <==> 'A' <= p[i] <= 'Z' {
      RangeClass('A', 'Z', p[i]);
    }
  }

  /** `/[a-z]/.test(p)` holds exactly when `p` has a lower-case letter. */
  lemma LowercaseTest(p: string)
    ensures Test(ParseClass("a-z"), p) <==> HasLower(p)
  {
    forall i | 0 <= i < |p| ensures InClass(ParseClass("a-z"), p[i]) <==> 'a' <= p[i] <= 'z' {
      RangeClass('a', 'z', p[i]);
    }
  }

  /** `/[0-9]/.test(p)` holds exactly when `p` has a digit. */
  lemma DigitTest(p: string)
    ensures Test(ParseClass("0-9"), p) <==> HasDigit(p)
  {
    forall i | 0 <= i < |p| ensures InClass(ParseClass("0-9"), p[i]) <==> '0' <= p[i] <= '9' {
      RangeClass('0', '9', p[i]);
    }
  }

  /** `/[#?!@$%^&*-]/.test(p)` holds exactly when `p` has one of the ten special characters. */
  lemma SpecialTest(p: string)
    ensures Test(ParseClass("#?!@$%^&*-"), p) <==> HasSpecial(p)
  {
    forall i | 0 <= i < |p| ensures InClass(ParseClass("#?!@$%^&*-"), p[i]) <==> p[i] in SpecialChars {
      SpecialClass(p[i]);
    }
  }

  /** `/^[a-zA-Z0-9_]+$/.test(u)` holds exactly when `u` is a non-empty run of word characters. */
  lemma WordTest(u: string)
    ensures FullMatch(ParseClass("a-zA-Z0-9_"), u) <==> |u| > 0 && forall i | 0 <= i < |u| :: IsWordChar(u[i])
  {
    forall i | 0 <= i < |u| ensures InClass(ParseClass("a-zA-Z0-9_"), u[i]) <==> IsWordChar(u[i]) {
      WordClass(u[i]);
    }
  }

  const PasswordChain := [MinLength, MaxLength, Uppercase, Lowercase, Number, Special]

  lemma PasswordChainOrdered()
    ensures forall i, j | 0 <= i < j < |PasswordChain| :: PasswordRank(PasswordChain[i]) < PasswordRank(PasswordChain[j])
  {
    assert forall i | 0 <= i < |PasswordChain| :: PasswordRank(PasswordChain[i]) == i;
  }

  /** Whether `p` fails `rule`, as the schema tests it (regular expressions included). */
  predicate PasswordFails(p: string, rule: PasswordRule) {
    match rule
    case MinLength => Utf16Length(p) < 8
    case MaxLength => Utf16Length(p) > 20
    case Uppercase => !Test(ParseClass("A-Z"), p)
    case Lowercase => !Test(ParseClass("a-z"), p)
    case Number => !Test(ParseClass("0-9"), p)
    case Special => !Test(ParseClass("#?!@$%^&*-"), p)
  }

  lemma InPasswordChain(rule: PasswordRule)
    ensures rule in PasswordChain
  {
    assert PasswordChain[PasswordRank(rule)] == rule;
  }

  /** The password rules `p` violates, each once, in chain order. */
  function PasswordViolations(p: string): (v: seq<PasswordRule>)
    ensures forall rule :: rule in v <==> PasswordFails(p, rule)
  {
    forall rule ensures rule in PasswordChain { InPasswordChain(rule); }
    Failing(PasswordChain, r => PasswordFails(p, r), PasswordRank)
  }

  /** Which rules a password violates, stated on its characters rather than
      through the regular expressions: the length bounds count UTF-16 code
      units, and each class rule asks for one character of that class. */
  lemma PasswordViolationsIff(p: string)
    ensures MinLength in PasswordViolations(p) <==> Utf16Length(p) < 8
    ensures MaxLength in PasswordViolations(p) <==> Utf16Length(p) > 20
    ensures Uppercase in PasswordViolations(p) <==> !HasUpper(p)
    ensures Lowercase in PasswordViolations(p) <==> !HasLower(p)
    ensures Number in PasswordViolations(p) <==> !HasDigit(p)
    ensures Special in PasswordViolations(p) <==> !HasSpecial(p)
    ensures PasswordViolations(p) == [] <==> StrongPassword(p)
  {
    var v := PasswordViolations(p);
    assert MinLength in v <==> Utf16Length(p) < 8;
    assert MaxLength in v <==> Utf16Length(p) > 20;
    assert Uppercase in v <==> !HasUpper(p) by { UppercaseTest(p); }
    assert Lowercase in v <==> !HasLower(p) by { LowercaseTest(p); }
    assert Number in v <==> !HasDigit(p) by { DigitTest(p); }
    assert Special in v <==> !HasSpecial(p) by { SpecialTest(p); }
    if v != [] {
      assert v[0] in v;
    }
  }

  /** Violations are reported in chain order, each at most once. */
  lemma PasswordViolationsOrdered(p: string)
    ensures forall i, j | 0 <= i < j < |PasswordViolations(p)| ::
      PasswordRank(PasswordViolations(p)[i]) < PasswordRank(PasswordViolations(p)[j])
  {
    PasswordChainOrdered();
    assert PasswordViolations(p) == Failing(PasswordChain, r => PasswordFails(p, r), PasswordRank);
  }

  /** `passwordValidationSchema`: the message of every violated rule. */
  function PasswordIssues(p: string): (issues: seq<string>)
    ensures |issues| == |PasswordViolations(p)|
    ensures forall i | 0 <= i < |issues| :: issues[i] == PasswordMessage(PasswordViolations(p)[i])
  {
    var v := PasswordViolations(p);
    seq(|v|, i requires 0 <= i < |v| => PasswordMessage(v[i]))
  }

  /** Every password rule has its own message. */
  lemma PasswordMessagesDistinct(a: PasswordRule, b: PasswordRule)
    ensures PasswordMessage(a) == PasswordMessage(b) <==> a == b
  {
  }

  /** A rule's message is reported exactly when the password violates that rule. */
  lemma PasswordMessageIff(p: string, rule: PasswordRule)
    ensures PasswordMessage(rule) in PasswordIssues(p) <==> rule in PasswordViolations(p)
  {
    var v := PasswordViolations(p);
    var issues := PasswordIssues(p);
    if PasswordMessage(rule) in issues {
      var i :| 0 <= i < |issues| && issues[i] == PasswordMessage(rule);
      PasswordMessagesDistinct(v[i], rule);
    }
    if rule in v {
      var i :| 0 <= i < |v| && v[i] == rule;
      assert issues[i] == PasswordMessage(rule);
    }
  }

  /** A password gets no message exactly when it meets all six rules. */
  lemma PasswordAcceptedIff(p: string)
    ensures PasswordIssues(p) == [] <==> StrongPassword(p)
  {
    assert PasswordIssues(p) == [] <==> PasswordViolations(p) == [];
    PasswordViolationsIff(p);
  }

  const UsernameChain := [ShortName, LongName, NameChars]

  /** Whether `u` fails `rule`, as the schema tests it. */
  predicate UsernameFails(u: string, rule: UsernameRule) {
    match rule
    case ShortName => Utf16Length(u) < 4
    case LongName => Utf16Length(u) > 20
    case NameChars => !FullMatch(ParseClass("a-zA-Z0-9_"), u)
  }

  lemma InUsernameChain(rule: UsernameRule)
    ensures rule in UsernameChain
  {
    assert UsernameChain[UsernameRank(rule)] == rule;
  }

  lemma UsernameChainOrdered()
    ensures forall i, j | 0 <= i < j < |UsernameChain| :: UsernameRank(UsernameChain[i]) < UsernameRank(UsernameChain[j])
  {
    assert forall i | 0 <= i < |UsernameChain| :: UsernameRank(UsernameChain[i]) == i;
  }

  /** The username rules `u` violates, each once, in chain order. */
  function UsernameViolations(u: string): (v: seq<UsernameRule>)
    ensures forall rule :: rule in v <==> UsernameFails(u, rule)
  {
    forall rule ensures rule in UsernameChain { InUsernameChain(rule); }
    Failing(UsernameChain, r => UsernameFails(u, r), UsernameRank)
  }

  /** Which rules a username violates, stated on its characters. */
  lemma UsernameViolationsIff(u: string)
    ensures ShortName in UsernameViolations(u) <==> Utf16Length(u) < 4
    ensures LongName in UsernameViolations(u) <==> Utf16Length(u) > 20
    ensures NameChars in UsernameViolations(u) <==> !(|u| > 0 && forall i | 0 <= i < |u| :: IsWordChar(u[i]))
  {
    var v := UsernameViolations(u);
    assert NameChars in v <==> !(|u| > 0 && forall i | 0 <= i < |u| :: IsWordChar(u[i])) by { WordTest(u); }
  }

  /** Username violations come in chain order, each at most once. */
  lemma UsernameViolationsOrdered(u: string)
    ensures forall i, j | 0 <= i < j < |UsernameViolations(u)| ::
      UsernameRank(UsernameViolations(u)[i]) < UsernameRank(UsernameViolations(u)[j])
  {
    UsernameChainOrdered();
    assert UsernameViolations(u) == Failing(UsernameChain, r => UsernameFails(u, r), UsernameRank);
  }

  /** `usernameValidationSchema`: the message of every violated rule. */
  function UsernameIssues(u: string): (issues: seq<string>)
    ensures |issues| == |UsernameViolations(u)|
    ensures forall i | 0 <= i < |issues| :: issues[i] == UsernameMessage(UsernameViolations(u)[i])
  {
    var v := UsernameViolations(u);
    seq(|v|, i requires 0 <= i < |v| => UsernameMessage(v[i]))
  }

  /** A username passes exactly when it has 4 to 20 characters, all of them
      ASCII letters, digits or `_` (such characters are one code unit each). */
  lemma UsernameAcceptedIff(u: string)
    ensures UsernameIssues(u) == [] <==> 4 <= |u| <= 20 && forall i | 0 <= i < |u| :: IsWordChar(u[i])
  {
    var v := UsernameViolations(u);
    UsernameViolationsIff(u);
    if forall i | 0 <= i < |u| :: IsWordChar(u[i]) {
      assert forall i | 0 <= i < |u| :: u[i] as int < 0x1_0000;
      assert Utf16Length(u) == |u|;
    }
    if v != [] {
      assert v[0] in v;
    }
  }

  /** The empty username fails both the length rule and the character rule. */
  lemma EmptyUsernameIssues()
    ensures UsernameIssues("") == [UsernameTooShort, UsernameBadChars]
  {
    var v := UsernameViolations("");
    UsernameViolationsIff("");
    UsernameViolationsOrdered("");
    assert forall r :: r in v <==> r == ShortName || r == NameChars;
    assert v == [ShortName, NameChars] by {
      assert v[0] in v;
      assert |v| >= 2 by { assert ShortName in v && NameChars in v; }
      assert v[1] in v;
    }
  }

  /** `.email({ message: 'Invalid email' })` over an email grammar given as a predicate. */
  function EmailIssues(email: string, isEmail: string -> bool): (issues: seq<string>)
    ensures issues == [] <==> isEmail(email)
    ensures issues != [] ==> issues == [InvalidEmail]
  {
    if isEmail(email) then [] else [InvalidEmail]
  }

  datatype UserInput = UserInput(username: string, email: string, password: string)

  /** Per-field messages, the shape of zod's flattened field errors. */
  datatype FieldIssues = FieldIssues(username: seq<string>, email: seq<string>, password: seq<string>)

  datatype Validated = Valid(input: UserInput) | Invalid(issues: FieldIssues)

  function UserIssues(input: UserInput, isEmail: string -> bool): FieldIssues {
    FieldIssues(UsernameIssues(input.username), EmailIssues(input.email, isEmail), PasswordIssues(input.password))
  }

  /** `userValidationSchema.safeParse`: success returns the input itself;
      failure reports, per field, the messages of every violated rule. */
  function ValidateUser(input: UserInput, isEmail: string -> bool): (r: Validated)
    ensures r.Valid? <==>
      && 4 <= |input.username| <= 20
      && (forall i | 0 <= i < |input.username| :: IsWordChar(input.username[i]))
      && isEmail(input.email)
      && StrongPassword(input.password)
    ensures r.Valid? ==> r.input == input
    ensures r.Invalid? ==> r.issues == UserIssues(input, isEmail)
  {
    UsernameAcceptedIff(input.username);
    PasswordAcceptedIff(input.password);
    var issues := UserIssues(input, isEmail);
    if issues.username == [] && issues.email == [] && issues.password == [] then Valid(input)
    else Invalid(issues)
  }

  /** Each field is judged on its own value: changing the other two fields
      never changes its messages. */
  lemma FieldsIndependent(a: UserInput, b: UserInput, isEmail: string -> bool)
    ensures a.username == b.username ==> UserIssues(a, isEmail).username == UserIssues(b, isEmail).username
    ensures a.email == b.email ==> UserIssues(a, isEmail).email == UserIssues(b, isEmail).email
    ensures a.password == b.password ==> UserIssues(a, isEmail).password == UserIssues(b, isEmail).password
  {
  }

  lemma ShortPasswordShape(p: string)
    requires p == "Short1!"
    ensures Utf16Length(p) == 7
    ensures HasUpper(p) && HasLower(p) && HasDigit(p) && HasSpecial(p)
  {
    assert HasUpper(p) by { assert 'A' <= p[0] <= 'Z'; }
    assert HasLower(p) by { assert 'a' <= p[1] <= 'z'; }
    assert HasDigit(p) by { assert '0' <= p[5] <= '9'; }
    assert HasSpecial(p) by { assert p[6] in SpecialChars; }
  }

  /** A seven-character password is refused for its length, and only for it
      when it meets the four character-class rules. */
  lemma ShortPasswordScenario(p: string)
    requires p == "Short1!"
    ensures PasswordIssues(p) == [PasswordTooShort]
  {
    var v := PasswordViolations(p);
    assert forall r :: r in v <==> r == MinLength by {
      ShortPasswordShape(p);
      PasswordViolationsIff(p);
    }
    assert v == [MinLength] by {
      PasswordViolationsOrdered(p);
      assert v[0] in v;
    }
  }
}
