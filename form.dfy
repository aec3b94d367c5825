/**
 * The state the `App` component keeps around the schema: the values bound
 * to the inputs, the `techs` field array that "Add" grows, the error map
 * of the last submit, and the `output` state that a successful submit
 * overwrites.
 */
module Form {
  import opened Wrappers
  import opened Schema

  class UserForm {
    /** The email-format test of `z.string().email()`, fixed for the form's lifetime. */
    const isEmail: string -> bool

    var name: string
    var email: string
    var password: string
    var techs: seq<RawTech>
    /** The resolver's error map from the last submit (re-validation on
        later edits is not modelled). */
    var errors: map<Path, string>
    /** The last payload handed to `createUser`; `None` is the initial `''`. */
    var output: Option<UserData>

    /** The output only ever holds a payload that passed the schema. */
    ghost predicate Valid()
      reads this
    {
      output.Some? ==> NormalForm(output.value)
    }

    /** The values a submit reads. */
    function Values(): (f: RawForm)
      reads this
    {
      RawForm(name, email, password, techs)
    }

    constructor(isEmail: string -> bool)
      ensures Valid() && this.isEmail == isEmail
      ensures name == "" && email == "" && password == ""
      ensures techs == [] && errors == map[] && output == None
    {
      this.isEmail := isEmail;
      name, email, password := "", "", "";
      techs := [];
      errors := map[];
      output := None;
    }

    /** `addNewTech`: append one default entry at the end. */
    method AppendTech()
      requires Valid()
      modifies this`techs
      ensures Valid()
      ensures techs == old(techs) + [DefaultTech]
    {
      techs := techs + [DefaultTech];
    }

    /** Typing into the input registered as `name`. */
    method EditName(value: string)
      modifies this`name
      ensures name == value
    {
      name := value;
    }

    /** Typing into the input registered as `email`. */
    method EditEmail(value: string)
      modifies this`email
      ensures email == value
    {
      email := value;
    }

    /** Typing into the input registered as `password`. */
    method EditPassword(value: string)
      modifies this`password
      ensures password == value
    {
      password := value;
    }

    /** Typing into the input registered as `techs.<i>.title`; only
        rendered entries have one. */
    method EditTechTitle(i: nat, value: string)
      requires i < |techs|
      modifies this`techs
      ensures techs == old(techs)[i := old(techs)[i].(title := value)]
    {
      techs := techs[i := techs[i].(title := value)];
    }

    /** Typing into the input registered as `techs.<i>.knowledge`, with the
        number it coerces to. */
    method EditTechKnowledge(i: nat, value: Option<int>)
      requires i < |techs|
      modifies this`techs
      ensures techs == old(techs)[i := old(techs)[i].(knowledge := value)]
    {
      techs := techs[i := techs[i].(knowledge := value)];
    }

    /** `handleSubmit(createUser)`: run the schema on the current values.
        On success the errors are cleared and the output is overwritten with
        the normalised payload; on failure the errors are replaced and the
        output stays; if the name transform throws, nothing changes. */
    method Submit() returns (outcome: Outcome)
      requires Valid()
      modifies this`errors, this`output
      ensures Valid()
      ensures outcome == Validate(isEmail, Values())
      ensures outcome.Parsed? <==> Accepted(isEmail, Values())
      ensures outcome.Parsed? ==> output == Some(outcome.data) && errors == map[]
      ensures outcome.Rejected? ==> output == old(output) && errors == outcome.errors
      ensures outcome.Threw? ==> output == old(output) && errors == old(errors)
    {
      var values := Values();
      outcome := Validate(isEmail, values);
      ValidateParsedIff(isEmail, values);
      if outcome.Parsed? {
        ValidateParsedData(isEmail, values);
        errors := map[];
        output := Some(outcome.data);
      } else if outcome.Rejected? {
        errors := outcome.errors;
      }
    }
  }

  /** Starting from an empty form, pressing "Add" twice gives two default
      entries; submitting them fails and leaves the output empty. */
  method AppendTwiceThenSubmit(isEmail: string -> bool) returns (form: UserForm, outcome: Outcome)
    ensures |form.techs| == 2 && form.techs[0] == form.techs[1] == DefaultTech
    ensures !outcome.Parsed? && form.output == None
  {
    form := new UserForm(isEmail);
    form.AppendTech();
    form.AppendTech();
    DefaultTechRejected(isEmail, form.Values(), 0);
    outcome := form.Submit();
  }
}
