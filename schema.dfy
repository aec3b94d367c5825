/**
 * `createUserFormSchema`: the rules every field of the form must meet, the
 * normalisation applied to the values that pass, and the error map the
 * resolver hands back when some rule fails.
 *
 * Zod checks every field and keeps going after a failed check, so all
 * failing rules are reported at once; the resolver keeps, for each field
 * path, the message of the first rule that failed on it. The one way the
 * parse does not end in data or errors is the name transform throwing on an
 * empty word, modelled as `Threw`.
 */
module Schema {
  import opened Wrappers
  import opened Text
  import opened NameTransform

  /** One techs entry as the form holds it. `knowledge` is the value after
      `z.coerce.number()`; `None` stands for NaN. */
  datatype RawTech = RawTech(title: string, knowledge: Option<int>)

  /** The values the form submits. */
  datatype RawForm = RawForm(name: string, email: string, password: string, techs: seq<RawTech>)

  /** A techs entry after a successful parse. */
  datatype Tech = Tech(title: string, knowledge: int)

  /** The normalised payload handed to the submit handler. */
  datatype UserData = UserData(name: string, email: string, password: string, techs: seq<Tech>)

  /** The field paths errors are reported under: "name", "email",
      "password", "techs", "techs.<i>.title" and "techs.<i>.knowledge". */
  datatype Path = Name | Email | Password | Techs | TechTitle(index: nat) | TechKnowledge(index: nat)

  /** What a parse ends in: normalised data, the error map, or an exception
      from the name transform. */
  datatype Outcome = Parsed(data: UserData) | Rejected(errors: map<Path, string>) | Threw

  const NameRequired: string := "O nome é obrigatório"
  const EmailRequired: string := "O email é obrigatório"
  const EmailMalformed: string := "Formato de email inválido"
  const EmailWrongDomain: string := "O email precisa terminar com .com.br"
  const PasswordTooShort: string := "A senha precisa de no mínimo 6 caracteres"
  const TitleRequired: string := "O título é obrigatório"
  const TooFewTechs: string := "Insira pelo menos duas tecnologias"
  /** Zod's default messages for `z.coerce.number().min(1).max(100)`. */
  const KnowledgeNotNumber: string := "Expected number, received nan"
  const KnowledgeTooSmall: string := "Number must be greater than or equal to 1"
  const KnowledgeTooLarge: string := "Number must be less than or equal to 100"

  const DomainSuffix: string := ".com.br"
  const MinPasswordLength: nat := 6
  const MinTechs: nat := 2
  const MinKnowledge: int := 1
  const MaxKnowledge: int := 100

  /** The entry the "Add" button appends: `{ title: '', knowledge: 0 }`. */
  const DefaultTech: RawTech := RawTech("", Some(0))

  // Each field's chain of checks, answering the message of the first one
  // that fails.

  function NameIssue(name: string): Option<string> {
    if |name| < 1 then Some(NameRequired) else None
  }

  /** `min(1)`, then `email()` on the raw value, then `toLowerCase()` and
      the `.com.br` refinement on the lower-cased value. */
  function EmailIssue(isEmail: string -> bool, email: string): Option<string> {
    if |email| < 1 then Some(EmailRequired)
    else if !isEmail(email) then Some(EmailMalformed)
    else if !EndsWith(LowerString(email), DomainSuffix) then Some(EmailWrongDomain)
    else None
  }

  function PasswordIssue(password: string): Option<string> {
    if |password| < MinPasswordLength then Some(PasswordTooShort) else None
  }

  function TitleIssue(title: string): Option<string> {
    if |title| < 1 then Some(TitleRequired) else None
  }

  function KnowledgeIssue(knowledge: Option<int>): Option<string> {
    match knowledge
    case None => Some(KnowledgeNotNumber)
    case Some(v) =>
      if v < MinKnowledge then Some(KnowledgeTooSmall)
      else if v > MaxKnowledge then Some(KnowledgeTooLarge)
      else None
  }

  function TechsIssue(techs: seq<RawTech>): Option<string> {
    if |techs| < MinTechs then Some(TooFewTechs) else None
  }

  /** The first failing message reported under path `p`, if any. */
  function IssueAt(isEmail: string -> bool, f: RawForm, p: Path): Option<string> {
    match p
    case Name => NameIssue(f.name)
    case Email => EmailIssue(isEmail, f.email)
    case Password => PasswordIssue(f.password)
    case Techs => TechsIssue(f.techs)
    case TechTitle(i) => if i < |f.techs| then TitleIssue(f.techs[i].title) else None
    case TechKnowledge(i) => if i < |f.techs| then KnowledgeIssue(f.techs[i].knowledge) else None
  }

  /** The paths of a form with `n` techs entries. */
  function FieldPaths(n: nat): set<Path> {
    {Name, Email, Password, Techs}
      + (set i: nat | i < n :: TechTitle(i))
      + (set i: nat | i < n :: TechKnowledge(i))
  }

  /** Every failing path of the form, with its first message. */
  function Errors(isEmail: string -> bool, f: RawForm): map<Path, string> {
    map p | p in FieldPaths(|f.techs|) && IssueAt(isEmail, f, p).Some? :: IssueAt(isEmail, f, p).value
  }

  // The rules stated directly, one predicate per field.

  predicate EmailAccepted(isEmail: string -> bool, email: string) {
    |email| >= 1 && isEmail(email) && EndsWith(LowerString(email), DomainSuffix)
  }

  predicate KnowledgeInRange(knowledge: Option<int>) {
    knowledge.Some? && MinKnowledge <= knowledge.value <= MaxKnowledge
  }

  predicate TechAccepted(t: RawTech) {
    t.title != [] && KnowledgeInRange(t.knowledge)
  }

  /** The form passes every rule and its name can be transformed. The
      required-name rule is kept as its own conjunct, one per rule of the
      schema, although a transformable name is never empty. */
  predicate Accepted(isEmail: string -> bool, f: RawForm) {
    && f.name != [] && TitleCase(f.name).Some?
    && EmailAccepted(isEmail, f.email)
    && |f.password| >= MinPasswordLength
    && |f.techs| >= MinTechs
    && forall i | 0 <= i < |f.techs| :: TechAccepted(f.techs[i])
  }

  /** What a successful parse produces: the normalised payload. */
  predicate NormalForm(d: UserData) {
    && TitleCase(d.name) == Some(d.name)
    && IsLowerCase(d.email) && EndsWith(d.email, DomainSuffix)
    && |d.password| >= MinPasswordLength
    && |d.techs| >= MinTechs
    && NormalTechs(d.techs)
  }

  predicate NormalTechs(techs: seq<Tech>) {
    forall i | 0 <= i < |techs| :: techs[i].title != [] && MinKnowledge <= techs[i].knowledge <= MaxKnowledge
  }

  lemma InFieldPaths(p: Path, n: nat)
    ensures p in FieldPaths(n) <==> (p.TechTitle? || p.TechKnowledge? ==> p.index < n)
  {
    match p
    case TechTitle(i) =>
      if i < n { assert TechTitle(i) in (set j: nat | j < n :: TechTitle(j)); }
    case TechKnowledge(i) =>
      if i < n { assert TechKnowledge(i) in (set j: nat | j < n :: TechKnowledge(j)); }
    case _ =>
  }

  /** The error map holds exactly the failing rules: each path is present
      if and only if its rule fails, and carries that rule's message. */
  lemma ErrorsExact(isEmail: string -> bool, f: RawForm)
    ensures var m := Errors(isEmail, f);
      && (Name in m <==> f.name == []) && (Name in m ==> m[Name] == NameRequired)
      && (Email in m <==> !EmailAccepted(isEmail, f.email))
      && (Email in m ==> m[Email] == (if f.email == [] then EmailRequired
                                      else if !isEmail(f.email) then EmailMalformed
                                      else EmailWrongDomain))
      && (Password in m <==> |f.password| < MinPasswordLength)
      && (Password in m ==> m[Password] == PasswordTooShort)
      && (Techs in m <==> |f.techs| < MinTechs) && (Techs in m ==> m[Techs] == TooFewTechs)
      && (forall i: nat :: TechTitle(i) in m <==> i < |f.techs| && f.techs[i].title == [])
      && (forall i: nat :: TechTitle(i) in m ==> m[TechTitle(i)] == TitleRequired)
      && (forall i: nat :: TechKnowledge(i) in m <==> i < |f.techs| && !KnowledgeInRange(f.techs[i].knowledge))
      && (forall i: nat :: TechKnowledge(i) in m ==>
            m[TechKnowledge(i)] == (if f.techs[i].knowledge.None? then KnowledgeNotNumber
                                    else if f.techs[i].knowledge.value < MinKnowledge then KnowledgeTooSmall
                                    else KnowledgeTooLarge))
  {
    var m := Errors(isEmail, f);
    var n := |f.techs|;
    InFieldPaths(Name, n);
    InFieldPaths(Email, n);
    InFieldPaths(Password, n);
    InFieldPaths(Techs, n);
    forall i: nat ensures TechTitle(i) in m <==> i < n && f.techs[i].title == [] {
      InFieldPaths(TechTitle(i), n);
    }
    forall i: nat ensures TechKnowledge(i) in m <==> i < n && !KnowledgeInRange(f.techs[i].knowledge) {
      InFieldPaths(TechKnowledge(i), n);
    }
  }

  /** With no error at all, every field passes its rule. */
  lemma NoErrorsAccepted(isEmail: string -> bool, f: RawForm)
    requires Errors(isEmail, f) == map[]
    ensures f.name != [] && EmailAccepted(isEmail, f.email)
    ensures |f.password| >= MinPasswordLength && |f.techs| >= MinTechs
    ensures forall i | 0 <= i < |f.techs| :: TechAccepted(f.techs[i])
  {
    ErrorsExact(isEmail, f);
    forall i | 0 <= i < |f.techs| ensures TechAccepted(f.techs[i]) {
      assert TechTitle(i) !in Errors(isEmail, f);
      assert TechKnowledge(i) !in Errors(isEmail, f);
    }
  }

  /** The payload after the transforms: title-cased name, lower-cased
      email, numeric knowledge values. */
  function Normalize(f: RawForm): UserData
    requires TitleCase(f.name).Some?
    requires forall i | 0 <= i < |f.techs| :: f.techs[i].knowledge.Some?
  {
    UserData(TitleCase(f.name).value, LowerString(f.email), f.password, NormalizeTechs(f.techs))
  }

  /** The entries with their coerced numbers. */
  function NormalizeTechs(techs: seq<RawTech>): (r: seq<Tech>)
    requires forall i | 0 <= i < |techs| :: techs[i].knowledge.Some?
    ensures |r| == |techs|
  {
    seq(|techs|, i requires 0 <= i < |techs| => Tech(techs[i].title, techs[i].knowledge.value))
  }

  /** `createUserFormSchema` run through the resolver. */
  function Validate(isEmail: string -> bool, f: RawForm): Outcome {
    if NameIssue(f.name).None? && TitleCase(f.name).None? then Threw
    else
      var errors := Errors(isEmail, f);
      if errors != map[] then Rejected(errors)
      else
        NoErrorsAccepted(isEmail, f);
        Parsed(Normalize(f))
  }

  lemma ValidateParsedIsNormalize(isEmail: string -> bool, f: RawForm)
    requires Validate(isEmail, f).Parsed?
    ensures TitleCase(f.name).Some? && forall i | 0 <= i < |f.techs| :: f.techs[i].knowledge.Some?
    ensures Validate(isEmail, f).data == Normalize(f)
  {
    NoErrorsAccepted(isEmail, f);
  }

  /** The parse throws exactly when the name passes its length check but
      trims and splits into an empty word, whatever the other fields hold. */
  lemma ValidateThrewIff(isEmail: string -> bool, f: RawForm)
    ensures Validate(isEmail, f) == Threw
        <==> f.name != [] && (Trim(f.name) == [] || !NoDoubleSep(Trim(f.name), ' '))
  {
    ValidateThrewOnName(isEmail, f);
    TitleCaseDefinedIff(f.name);
  }

  /** The parse throws exactly when the name passes `min(1)` and the
      transform is undefined on it. */
  lemma ValidateThrewOnName(isEmail: string -> bool, f: RawForm)
    ensures Validate(isEmail, f) == Threw <==> NameIssue(f.name).None? && TitleCase(f.name).None?
  {
    if !(NameIssue(f.name).None? && TitleCase(f.name).None?) {
      assert !Validate(isEmail, f).Threw?;
    }
  }

  /** A name of spaces only passes the required-field check, which looks at
      the untrimmed string, and then makes the transform throw. */
  lemma BlankNameThrows(isEmail: string -> bool, f: RawForm)
    requires f.name != [] && forall k | 0 <= k < |f.name| :: IsSpace(f.name[k])
    ensures NameIssue(f.name) == None
    ensures Validate(isEmail, f) == Threw
  {
    WhitespaceNameThrows(f.name);
  }

  /** A parse succeeds if and only if every rule holds. */
  lemma ValidateParsedIff(isEmail: string -> bool, f: RawForm)
    ensures Validate(isEmail, f).Parsed? <==> Accepted(isEmail, f)
  {
    ErrorsExact(isEmail, f);
    var m := Errors(isEmail, f);
    if Accepted(isEmail, f) {
      forall p ensures p !in m {
        match p
        case TechTitle(i) => if i < |f.techs| { assert TechAccepted(f.techs[i]); }
        case TechKnowledge(i) => if i < |f.techs| { assert TechAccepted(f.techs[i]); }
        case _ =>
      }
      assert m == map[];
    }
    if Validate(isEmail, f).Parsed? {
      NoErrorsAccepted(isEmail, f);
    }
  }

  /** A rejected parse carries the whole error map of the form, so by
      `ErrorsExact` it reports every failing rule at once, under its path,
      and nothing else. */
  lemma ValidateRejectedErrors(isEmail: string -> bool, f: RawForm)
    requires Validate(isEmail, f).Rejected?
    ensures Validate(isEmail, f).errors == Errors(isEmail, f)
    ensures Validate(isEmail, f).errors != map[]
  {
  }

  lemma NormalizedTechs(techs: seq<RawTech>)
    requires forall i | 0 <= i < |techs| :: TechAccepted(techs[i])
    ensures forall i | 0 <= i < |techs| :: techs[i].knowledge.Some?
    ensures var r := NormalizeTechs(techs);
      && NormalTechs(r)
      && forall i | 0 <= i < |techs| :: Some(r[i].knowledge) == techs[i].knowledge && r[i].title == techs[i].title
  {
  }

  lemma NormalizedName(name: string)
    requires TitleCase(name).Some?
    ensures TitleCase(name).value == UpperWordStarts(Trim(name))
    ensures TitleCase(TitleCase(name).value) == TitleCase(name)
  {
    TitleCaseIsUpperWordStarts(name);
    TitleCaseIdempotent(name);
  }

  lemma NormalizedEmail(isEmail: string -> bool, email: string)
    requires EmailAccepted(isEmail, email)
    ensures IsLowerCase(LowerString(email)) && EndsWith(LowerString(email), DomainSuffix)
  {
    LowerStringIsLowerCase(email);
  }

  /** A successful parse yields the normalised payload: the name with its
      word starts upper-cased, the email lower-cased, the password as typed,
      and every entry with its title and its number. */
  lemma ValidateParsedData(isEmail: string -> bool, f: RawForm)
    requires Validate(isEmail, f).Parsed?
    ensures var d := Validate(isEmail, f).data;
      && d.name == UpperWordStarts(Trim(f.name))
      && d.email == LowerString(f.email)
      && d.password == f.password
      && |d.techs| == |f.techs|
      && (forall i | 0 <= i < |f.techs| ::
            Some(d.techs[i].knowledge) == f.techs[i].knowledge && d.techs[i].title == f.techs[i].title)
      && NormalForm(d)
  {
    ValidateParsedIsNormalize(isEmail, f);
    ValidateParsedIff(isEmail, f);
    NormalizedName(f.name);
    NormalizedEmail(isEmail, f.email);
    NormalizedTechs(f.techs);
  }

  /** Fewer than two entries are rejected even when each one is valid. */
  lemma TooFewTechsRejected(isEmail: string -> bool, f: RawForm)
    requires |f.techs| < MinTechs
    ensures !Validate(isEmail, f).Parsed?
    ensures Validate(isEmail, f).Rejected? ==> Validate(isEmail, f).errors[Techs] == TooFewTechs
    ensures f.name == [] ==> Validate(isEmail, f).Rejected?
  {
    ErrorsExact(isEmail, f);
  }

  /** The appended default entry fails both its title rule and its
      knowledge rule, so a form holding it cannot be parsed. */
  lemma DefaultTechRejected(isEmail: string -> bool, f: RawForm, i: nat)
    requires i < |f.techs| && f.techs[i] == DefaultTech
    ensures !Validate(isEmail, f).Parsed?
    ensures Validate(isEmail, f).Rejected? ==>
      && Validate(isEmail, f).errors[TechTitle(i)] == TitleRequired
      && Validate(isEmail, f).errors[TechKnowledge(i)] == KnowledgeTooSmall
  {
    ValidateParsedIff(isEmail, f);
    assert !TechAccepted(f.techs[i]);
    if Validate(isEmail, f).Rejected? {
      ValidateRejectedErrors(isEmail, f);
      DefaultTechErrors(isEmail, f, i);
    }
  }

  /** The default entry at `i` fails its title and its knowledge rule. */
  lemma DefaultTechErrors(isEmail: string -> bool, f: RawForm, i: nat)
    requires i < |f.techs| && f.techs[i] == DefaultTech
    ensures var m := Errors(isEmail, f);
      && TechTitle(i) in m && m[TechTitle(i)] == TitleRequired
      && TechKnowledge(i) in m && m[TechKnowledge(i)] == KnowledgeTooSmall
  {
    InFieldPaths(TechTitle(i), |f.techs|);
    InFieldPaths(TechKnowledge(i), |f.techs|);
  }

  /** The domain is checked after lower-casing: an upper-case ".COM.BR"
      passes, a ".com" address never does. */
  lemma EmailDomainExamples(isEmail: string -> bool)
    requires isEmail("X@Y.COM.BR")
    ensures EmailAccepted(isEmail, "X@Y.COM.BR")
    ensures !EmailAccepted(isEmail, "x@y.com")
  {
    assert LowerString("X@Y.COM.BR") == "x@y.com.br";
    var lower := LowerString("x@y.com");
    assert lower[0] == 'x';
    assert lower[0..] != DomainSuffix by { assert DomainSuffix[0] == '.'; }
  }

  /** Knowledge 0 and 101 are out of range; 1 and 100 are in it. */
  lemma KnowledgeBounds()
    ensures KnowledgeIssue(Some(0)) == Some(KnowledgeTooSmall)
    ensures KnowledgeIssue(Some(1)) == None && KnowledgeIssue(Some(100)) == None
    ensures KnowledgeIssue(Some(101)) == Some(KnowledgeTooLarge)
  {
  }
}
