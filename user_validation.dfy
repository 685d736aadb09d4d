/**
 * The User record of the guide and UserStructValidation, its struct-level
 * rule: a user must have a first name or a last name. The validator hands
 * the rule a StructLevel handle that exposes the struct being validated and
 * collects the errors the rule reports into the validation's error list.
 */
module UserValidation {
  import Utf8

  /** sql.NullString: a string that may be absent. */
  datatype NullString = NullString(str: string, valid: bool)

  /** The User struct; `status` holds a UserStatus, a Go `int`. */
  datatype User = User(
    username: string,
    email: string,
    age: int,
    status: int,
    phone: string,
    nickName: NullString,
    firstName: string,
    lastName: string)

  /**
   * One call of StructLevel.ReportError: the field's value, the field name
   * used in the error's namespace, the struct field name, the failed tag and
   * its parameter.
   */
  datatype FieldError = FieldError(
    value: string,
    fieldName: string,
    structFieldName: string,
    tag: string,
    param: string)

  /**
   * The errors UserStructValidation reports for `u`, in order. Go's `len`
   * counts bytes, so the test is on the UTF-8 encodings of the names; the
   * contract restates it on the names themselves.
   */
  function NameErrors(u: User): (r: seq<FieldError>)
    ensures r == [] <==> u.firstName != "" || u.lastName != ""
    ensures r != [] ==> r == [FieldError("", "first_name", "FirstName", "require_name", ""),
                             FieldError("", "last_name", "LastName", "require_name", "")]
  {
    if |Utf8.Encode(u.firstName)| == 0 && |Utf8.Encode(u.lastName)| == 0 then
      [FieldError(u.firstName, "first_name", "FirstName", "require_name", ""),
       FieldError(u.lastName, "last_name", "LastName", "require_name", "")]
    else
      []
  }

  /** The rule reads the two names and nothing else of the user. */
  lemma NameErrorsReadOnlyNames(u: User, v: User)
    requires u.firstName == v.firstName && u.lastName == v.lastName
    ensures NameErrors(u) == NameErrors(v)
  {
  }

  /** The handle a struct-level rule receives. */
  class StructLevel {
    /** The struct being validated, what Current() returns. */
    const current: User
    /** The errors reported so far during this validation. */
    var errors: seq<FieldError>

    constructor (current: User, errors: seq<FieldError>)
      ensures this.current == current && this.errors == errors
    {
      this.current := current;
      this.errors := errors;
    }

    /** Appends one error to the validation's error list. */
    method ReportError(field: string, fieldName: string, structFieldName: string, tag: string, param: string)
      modifies this
      ensures errors == old(errors) + [FieldError(field, fieldName, structFieldName, tag, param)]
    {
      errors := errors + [FieldError(field, fieldName, structFieldName, tag, param)];
    }
  }

  /**
   * Reports, after whatever was already reported, the errors NameErrors gives
   * for the current user: both names, in order, when both are empty, and
   * nothing otherwise.
   */
  method UserStructValidation(sl: StructLevel)
    modifies sl
    ensures sl.errors == old(sl.errors) + NameErrors(sl.current)
  {
    var user := sl.current;
    if |Utf8.Encode(user.firstName)| == 0 && |Utf8.Encode(user.lastName)| == 0 {
      sl.ReportError(user.firstName, "first_name", "FirstName", "require_name", "");
      sl.ReportError(user.lastName, "last_name", "LastName", "require_name", "");
    }
  }

  /** The guide's first and third demonstration users. */
  lemma NameErrorsExamples()
    ensures NameErrors(User("zhang_san", "zhangsan@example.com", 25, 1, "13800138000",
                            NullString("", false), "San", "Zhang")) == []
    ensures NameErrors(User("test_user", "test@example.com", 25, 1, "13800138000",
                            NullString("", false), "", ""))
            == [FieldError("", "first_name", "FirstName", "require_name", ""),
                FieldError("", "last_name", "LastName", "require_name", "")]
  {
  }
}
