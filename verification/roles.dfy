/** The closed role enumeration `AUTH_ROLES` and the conversions between a
    role and its wire name. */
module Roles {
  import opened Wrappers

  datatype Role = Admin | Clinician | Receptionist | Patient | Student

  /** `AUTH_ROLES`, in declaration order. */
  const AllRoles: seq<Role> := [Admin, Clinician, Receptionist, Patient, Student]

  function Name(r: Role): string {
    match r
    case Admin => "admin"
    case Clinician => "clinician"
    case Receptionist => "receptionist"
    case Patient => "patient"
    case Student => "student"
  }

  /** `AUTH_ROLES.includes(s)`, returning the role it names. */
  function FromName(s: string): Option<Role> {
    if s == "admin" then Some(Admin)
    else if s == "clinician" then Some(Clinician)
    else if s == "receptionist" then Some(Receptionist)
    else if s == "patient" then Some(Patient)
    else if s == "student" then Some(Student)
    else None
  }

  predicate IsRoleName(s: string) {
    FromName(s).Some?
  }

  /** `FromName` and `Name` are inverse: a name parses back to its role,
      and only role names parse. */
  lemma NameRoundTrip(r: Role, s: string)
    ensures FromName(Name(r)) == Some(r)
    ensures FromName(s) == Some(r) <==> s == Name(r)
  {
  }

  function Names(rs: seq<Role>): (ns: seq<string>)
    ensures |ns| == |rs|
    ensures forall i :: 0 <= i < |rs| ==> ns[i] == Name(rs[i])
  {
    seq(|rs|, i requires 0 <= i < |rs| => Name(rs[i]))
  }
}
