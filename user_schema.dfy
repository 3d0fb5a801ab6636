/** The volunteer form's validation schema (`formUserSchema`): one rule set per field.
    Whether a text is an e-mail address or a UUID is decided by the validation
    library; here those two tests are given predicates. */
module UserSchema {
  import opened Base

  /** The submitted form. For a required field `None` stands for a value that is
      missing or of the wrong type. The two optional fields keep the cases apart: `None`
      is a missing value, and a present value that is not a string (`null`, a number)
      is `Some` with its `...IsString` flag false. `email` and `phoneNumber` are the
      values after coercion (`String(...)`, `Number(...)`, with `None` for NaN). */
  datatype UserForm = UserForm(
    idUser: Option<string>,
    idUserIsString: bool,
    name: Option<string>,
    email: string,
    birthdate: Option<int>,
    password: Option<string>,
    phoneNumber: Option<real>,
    idUniversity: Option<string>,
    idUniversityIsString: bool,
    idRole: Option<string>
  )

  /** The rule a field broke. */
  datatype Issue =
    | IdUserNotString | IdUserNotUuid
    | NameMissing | NameTooShort
    | EmailInvalid | EmailTooShort
    | BirthdateMissing
    | PasswordMissing | PasswordTooShort
    | PhoneNotNumber | PhoneNotPositive
    | UniversityNotString
    | RoleMissing | RoleNotUuid

  /** The e-mail and UUID tests of the validation library. */
  datatype Formats = Formats(isEmail: string -> bool, isUuid: string -> bool)

  /** The issues of one field, in the order the schema checks them. */
  function IdUserIssues(f: Formats, u: UserForm): (r: seq<Issue>)
    ensures forall x :: x in r ==> FieldOf(x) == 0
  {
    if u.idUser.None? then []
    else if !u.idUserIsString then [IdUserNotString]
    else if !f.isUuid(u.idUser.value) then [IdUserNotUuid]
    else []
  }

  function NameIssues(u: UserForm): (r: seq<Issue>)
    ensures forall x :: x in r ==> FieldOf(x) == 1
  {
    if u.name.None? then [NameMissing] else if |u.name.value| < 2 then [NameTooShort] else []
  }

  function EmailIssues(f: Formats, u: UserForm): (r: seq<Issue>)
    ensures forall x :: x in r ==> FieldOf(x) == 2
  {
    (if f.isEmail(u.email) then [] else [EmailInvalid]) + (if |u.email| < 5 then [EmailTooShort] else [])
  }

  function BirthdateIssues(u: UserForm): (r: seq<Issue>)
    ensures forall x :: x in r ==> FieldOf(x) == 3
  {
    if u.birthdate.None? then [BirthdateMissing] else []
  }

  function PasswordIssues(u: UserForm): (r: seq<Issue>)
    ensures forall x :: x in r ==> FieldOf(x) == 4
  {
    if u.password.None? then [PasswordMissing] else if |u.password.value| < 6 then [PasswordTooShort] else []
  }

  function PhoneIssues(u: UserForm): (r: seq<Issue>)
    ensures forall x :: x in r ==> FieldOf(x) == 5
  {
    if u.phoneNumber.None? then [PhoneNotNumber] else if u.phoneNumber.value <= 0.0 then [PhoneNotPositive] else []
  }

  function UniversityIssues(u: UserForm): (r: seq<Issue>)
    ensures forall x :: x in r ==> FieldOf(x) == 6
  {
    if u.idUniversity.Some? && !u.idUniversityIsString then [UniversityNotString] else []
  }

  function RoleIssues(f: Formats, u: UserForm): (r: seq<Issue>)
    ensures forall x :: x in r ==> FieldOf(x) == 7
  {
    if u.idRole.None? then [RoleMissing] else if !f.isUuid(u.idRole.value) then [RoleNotUuid] else []
  }

  /** `formUserSchema.safeParse` (lines 8-25): every field is checked and every issue
      reported, field by field in declaration order. */
  function Validate(f: Formats, u: UserForm): (issues: seq<Issue>)
    ensures FieldOrdered(issues)
  {
    var a0 := IdUserIssues(f, u);
    FieldOrderedOne(a0, 0);
    var a1 := OrderedAppend(a0, 0, NameIssues(u), 1);
    var a2 := OrderedAppend(a1, 1, EmailIssues(f, u), 2);
    var a3 := OrderedAppend(a2, 2, BirthdateIssues(u), 3);
    var a4 := OrderedAppend(a3, 3, PasswordIssues(u), 4);
    var a5 := OrderedAppend(a4, 4, PhoneIssues(u), 5);
    var a6 := OrderedAppend(a5, 5, UniversityIssues(u), 6);
    OrderedAppend(a6, 6, RoleIssues(f, u), 7)
  }

  /** The issues come field by field: no issue follows one of a later field. */
  predicate FieldOrdered(s: seq<Issue>) {
    forall i, j :: 0 <= i < j < |s| ==> FieldOf(s[i]) <= FieldOf(s[j])
  }

  /** The issues of one field are in field order. */
  lemma FieldOrderedOne(s: seq<Issue>, k: nat)
    requires forall x :: x in s ==> FieldOf(x) == k
    ensures FieldOrdered(s)
  {
    forall i, j | 0 <= i < j < |s| ensures FieldOf(s[i]) <= FieldOf(s[j]) {
      assert s[i] in s && s[j] in s;
    }
  }

  /** Appending the issues of field `k` to ordered issues of fields up to `j < k`. */
  function OrderedAppend(a: seq<Issue>, j: nat, b: seq<Issue>, k: nat): (r: seq<Issue>)
    requires FieldOrdered(a) && (forall x :: x in a ==> FieldOf(x) <= j) && j < k
    requires forall x :: x in b ==> FieldOf(x) == k
    ensures r == a + b
    ensures FieldOrdered(r) && forall x :: x in r ==> FieldOf(x) <= k
  {
    var r := a + b;
    forall i, i' | 0 <= i < i' < |r| ensures FieldOf(r[i]) <= FieldOf(r[i']) {
      if i' < |a| {
        assert r[i] == a[i] && r[i'] == a[i'];
      } else if i < |a| {
        assert r[i] == a[i] && a[i] in a && r[i'] == b[i' - |a|] && b[i' - |a|] in b;
      } else {
        assert r[i] == b[i - |a|] && b[i - |a|] in b && r[i'] == b[i' - |a|] && b[i' - |a|] in b;
      }
    }
    r
  }

  /** Each length or sign rule is reported exactly when it is broken. */
  lemma NameLengthReported(f: Formats, u: UserForm)
    ensures (NameTooShort in Validate(f, u)) <==> u.name.Some? && |u.name.value| < 2
  {
    ReportedByItsField(f, u, NameTooShort);
  }

  lemma EmailLengthReported(f: Formats, u: UserForm)
    ensures (EmailTooShort in Validate(f, u)) <==> |u.email| < 5
  {
    ReportedByItsField(f, u, EmailTooShort);
  }

  lemma PasswordLengthReported(f: Formats, u: UserForm)
    ensures (PasswordTooShort in Validate(f, u)) <==> u.password.Some? && |u.password.value| < 6
  {
    ReportedByItsField(f, u, PasswordTooShort);
  }

  /** A present `id_user` that is not a string (`null`, a number) is rejected. */
  lemma IdUserTypeReported(f: Formats, u: UserForm)
    ensures (IdUserNotString in Validate(f, u)) <==> u.idUser.Some? && !u.idUserIsString
  {
    ReportedByItsField(f, u, IdUserNotString);
  }

  lemma PhoneSignReported(f: Formats, u: UserForm)
    ensures (PhoneNotPositive in Validate(f, u)) <==> u.phoneNumber.Some? && u.phoneNumber.value <= 0.0
  {
    ReportedByItsField(f, u, PhoneNotPositive);
  }

  /** The field each issue belongs to, in declaration order. */
  function FieldOf(x: Issue): nat {
    match x
    case IdUserNotString | IdUserNotUuid => 0
    case NameMissing | NameTooShort => 1
    case EmailInvalid | EmailTooShort => 2
    case BirthdateMissing => 3
    case PasswordMissing | PasswordTooShort => 4
    case PhoneNotNumber | PhoneNotPositive => 5
    case UniversityNotString => 6
    case RoleMissing | RoleNotUuid => 7
  }

  /** The issues of the field numbered `k`. */
  function FieldIssues(f: Formats, u: UserForm, k: nat): seq<Issue> {
    if k == 0 then IdUserIssues(f, u) else if k == 1 then NameIssues(u)
    else if k == 2 then EmailIssues(f, u) else if k == 3 then BirthdateIssues(u)
    else if k == 4 then PasswordIssues(u) else if k == 5 then PhoneIssues(u)
    else if k == 6 then UniversityIssues(u) else RoleIssues(f, u)
  }

  /** An issue is reported when its own field reports it. */
  lemma ReportedByItsField(f: Formats, u: UserForm, x: Issue)
    ensures (x in Validate(f, u)) <==> (x in FieldIssues(f, u, FieldOf(x)))
  {
  }

  /** The schema's rules as one statement. */
  predicate AllRulesHold(f: Formats, u: UserForm) {
    && (u.idUser.None? || (u.idUserIsString && f.isUuid(u.idUser.value)))
    && u.name.Some? && |u.name.value| >= 2
    && f.isEmail(u.email) && |u.email| >= 5
    && u.birthdate.Some?
    && u.password.Some? && |u.password.value| >= 6
    && u.phoneNumber.Some? && u.phoneNumber.value > 0.0
    && (u.idUniversity.None? || u.idUniversityIsString)
    && u.idRole.Some? && f.isUuid(u.idRole.value)
  }

  /** A form is accepted exactly when every rule holds. */
  lemma ValidIffRules(f: Formats, u: UserForm)
    ensures Validate(f, u) == [] <==> AllRulesHold(f, u)
  {
    var parts := [IdUserIssues(f, u), NameIssues(u), EmailIssues(f, u), BirthdateIssues(u),
                  PasswordIssues(u), PhoneIssues(u), UniversityIssues(u), RoleIssues(f, u)];
    if Validate(f, u) == [] {
      assert |Validate(f, u)| == |parts[0]| + |parts[1]| + |parts[2]| + |parts[3]|
        + |parts[4]| + |parts[5]| + |parts[6]| + |parts[7]|;
    }
  }

  /** A name of at least two characters, a password of at least six, a positive phone
      number, a birth date and the e-mail and role tests passing, with the optional
      fields left out: accepted. */
  lemma MinimalFormAccepted(f: Formats, name: string, email: string, birthdate: int, password: string,
                            phone: real, role: string)
    requires |name| >= 2 && |password| >= 6 && phone > 0.0 && |email| >= 5
    requires f.isEmail(email) && f.isUuid(role)
    ensures Validate(f, UserForm(None, false, Some(name), email, Some(birthdate), Some(password), Some(phone),
                                 None, false, Some(role))) == []
  {
    ValidIffRules(f, UserForm(None, false, Some(name), email, Some(birthdate), Some(password), Some(phone),
                              None, false, Some(role)));
  }
}
