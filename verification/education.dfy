/** The two education handlers that check before they create:
    `RegisterStudentHandler` (one student profile per user) and
    `EnrollInCourseHandler` (one enrollment per student and course, each
    announced by exactly one `student.enrolled` event). The profile and
    enrollment repositories are sequences of rows; the event emitter is the
    sequence of events emitted so far. */
module Education {
  import opened Wrappers
  import opened AuthTypes
  import opened Rows

  datatype VerificationStatus = Pending | Verified | Rejected

  datatype SubscriptionStatus = Inactive | Active | PastDue

  /** `StudentProfileDto`; times are epoch milliseconds. */
  datatype StudentProfile = StudentProfile(
    id: string,
    userId: string,
    university: string,
    studentIdNumber: string,
    verificationStatus: VerificationStatus,
    subscriptionStatus: SubscriptionStatus,
    subscriptionExpiresAt: Option<int>,
    createdAt: int,
    updatedAt: int
  )

  datatype RegisterStudentRequest = RegisterStudentRequest(university: string, studentIdNumber: string)

  /** A course enrollment: its id, the student profile it belongs to and the
      course it is for. */
  datatype Enrollment = Enrollment(id: string, studentId: string, courseSlug: string)

  /** The payload of `student.enrolled`. */
  datatype EnrolledPayload = EnrolledPayload(userId: string, studentId: string, courseSlug: string, enrollmentId: string)

  datatype Event = Event(name: string, payload: EnrolledPayload)

  const StudentEnrolled: string := "student.enrolled"

  datatype EducationError = Conflict(message: string)

  const ProfileExists: EducationError := Conflict("Student profile already exists for this user")
  const ProfileMissing: EducationError := Conflict("Student profile not found. Please complete registration first.")
  const AlreadyEnrolled: EducationError := Conflict("You are already enrolled in this course.")

  datatype EducationStore = EducationStore(profiles: seq<StudentProfile>, enrollments: seq<Enrollment>, events: seq<Event>)

  datatype Outcome<T> = Outcome(result: Result<T, EducationError>, store: EducationStore)

  function OwnedBy(userId: string): StudentProfile -> bool {
    (p: StudentProfile) => p.userId == userId
  }

  /** `findByUserId`. */
  function FindProfile(st: EducationStore, userId: string): (r: Option<StudentProfile>)
    ensures r.Some? ==> r.value in st.profiles && r.value.userId == userId
    ensures r.None? <==> forall i :: 0 <= i < |st.profiles| ==> st.profiles[i].userId != userId
  {
    First(st.profiles, OwnedBy(userId))
  }

  function EnrollmentOf(studentId: string, courseSlug: string): Enrollment -> bool {
    (e: Enrollment) => e.studentId == studentId && e.courseSlug == courseSlug
  }

  /** `findEnrollmentByStudentAndCourse`. */
  function FindEnrollment(st: EducationStore, studentId: string, courseSlug: string): (r: Option<Enrollment>)
    ensures r.Some? ==> r.value in st.enrollments && r.value.studentId == studentId && r.value.courseSlug == courseSlug
    ensures r.None? <==> forall i :: 0 <= i < |st.enrollments| ==>
                           !(st.enrollments[i].studentId == studentId && st.enrollments[i].courseSlug == courseSlug)
  {
    First(st.enrollments, EnrollmentOf(studentId, courseSlug))
  }

  /** At most one profile per user. */
  predicate OneProfilePerUser(profiles: seq<StudentProfile>) {
    forall i, j :: 0 <= i < j < |profiles| ==> profiles[i].userId != profiles[j].userId
  }

  /** At most one enrollment per (student, course). */
  predicate OneEnrollmentPerCourse(enrollments: seq<Enrollment>) {
    forall i, j :: 0 <= i < j < |enrollments| ==>
      !(enrollments[i].studentId == enrollments[j].studentId && enrollments[i].courseSlug == enrollments[j].courseSlug)
  }

  /** The event log announces every enrollment once, in creation order. */
  predicate EventsTrackEnrollments(st: EducationStore) {
    && |st.events| == |st.enrollments|
    && forall i :: 0 <= i < |st.events| ==>
         && st.events[i].name == StudentEnrolled
         && st.events[i].payload.enrollmentId == st.enrollments[i].id
         && st.events[i].payload.studentId == st.enrollments[i].studentId
         && st.events[i].payload.courseSlug == st.enrollments[i].courseSlug
  }

  predicate Consistent(st: EducationStore) {
    OneProfilePerUser(st.profiles) && OneEnrollmentPerCourse(st.enrollments) && EventsTrackEnrollments(st)
  }

  /** `RegisterStudentHandler.execute` with a fresh profile id and clock
      reading for the row `createProfile` inserts. */
  function RegisterStudent(st: EducationStore, user: Principal, req: RegisterStudentRequest,
                           profileId: string, now: int): (o: Outcome<StudentProfile>)
    ensures FindProfile(st, user.userId).Some? ==> o == Outcome(Err(ProfileExists), st)
    ensures FindProfile(st, user.userId).None? ==> o.result.Ok?
    ensures o.result.Ok? ==>
              && o.result.value.id == profileId
              && o.result.value.userId == user.userId
              && o.result.value.university == req.university
              && o.result.value.studentIdNumber == req.studentIdNumber
              && o.result.value.verificationStatus == Pending
              && o.result.value.subscriptionStatus == Inactive
              && o.result.value.subscriptionExpiresAt == None
              && o.store == st.(profiles := st.profiles + [o.result.value])
    ensures Consistent(st) ==> Consistent(o.store)
  {
    if FindProfile(st, user.userId).Some? then Outcome(Err(ProfileExists), st)
    else
      var p := StudentProfile(profileId, user.userId, req.university, req.studentIdNumber,
                              Pending, Inactive, None, now, now);
      Outcome(Ok(p), st.(profiles := st.profiles + [p]))
  }

  /** `EnrollInCourseHandler.execute` with a fresh enrollment id. */
  function EnrollInCourse(st: EducationStore, userId: string, courseSlug: string, enrollmentId: string)
    : (o: Outcome<Enrollment>)
    ensures FindProfile(st, userId).None? ==> o == Outcome(Err(ProfileMissing), st)
    ensures (FindProfile(st, userId).Some? && FindEnrollment(st, FindProfile(st, userId).value.id, courseSlug).Some?)
              ==> o == Outcome(Err(AlreadyEnrolled), st)
    ensures o.result.Ok? <==>
              FindProfile(st, userId).Some? && FindEnrollment(st, FindProfile(st, userId).value.id, courseSlug).None?
    ensures o.result.Ok? ==>
              var studentId := FindProfile(st, userId).value.id;
              && o.result.value == Enrollment(enrollmentId, studentId, courseSlug)
              && o.store.profiles == st.profiles
              && o.store.enrollments == st.enrollments + [o.result.value]
              && o.store.events == st.events + [Event(StudentEnrolled, EnrolledPayload(userId, studentId, courseSlug, enrollmentId))]
    ensures |o.store.events| == |st.events| + (if o.result.Ok? then 1 else 0)
    ensures Consistent(st) ==> Consistent(o.store)
  {
    match FindProfile(st, userId)
    case None => Outcome(Err(ProfileMissing), st)
    case Some(profile) =>
      if FindEnrollment(st, profile.id, courseSlug).Some? then Outcome(Err(AlreadyEnrolled), st)
      else
        var e := Enrollment(enrollmentId, profile.id, courseSlug);
        var ev := Event(StudentEnrolled, EnrolledPayload(userId, profile.id, courseSlug, enrollmentId));
        Outcome(Ok(e), st.(enrollments := st.enrollments + [e], events := st.events + [ev]))
  }

  /** Registering the same user twice: the second attempt conflicts and
      leaves the first profile as the only one for that user. */
  lemma RegisterTwiceConflicts(st: EducationStore, user: Principal, req: RegisterStudentRequest, profileId: string,
                               now: int, req2: RegisterStudentRequest, profileId2: string, now2: int)
    requires RegisterStudent(st, user, req, profileId, now).result.Ok?
    ensures var st' := RegisterStudent(st, user, req, profileId, now).store;
      RegisterStudent(st', user, req2, profileId2, now2) == Outcome(Err(ProfileExists), st')
  {
    var st' := RegisterStudent(st, user, req, profileId, now).store;
    assert st'.profiles[|st'.profiles| - 1].userId == user.userId;
  }

  /** Enrolling twice in the same course: the second attempt conflicts,
      creates nothing and emits nothing. */
  lemma EnrollTwiceConflicts(st: EducationStore, userId: string, courseSlug: string, enrollmentId: string,
                             enrollmentId2: string)
    requires EnrollInCourse(st, userId, courseSlug, enrollmentId).result.Ok?
    ensures var st' := EnrollInCourse(st, userId, courseSlug, enrollmentId).store;
      EnrollInCourse(st', userId, courseSlug, enrollmentId2) == Outcome(Err(AlreadyEnrolled), st')
  {
    var st' := EnrollInCourse(st, userId, courseSlug, enrollmentId).store;
    assert FindProfile(st', userId) == FindProfile(st, userId);
    assert st'.enrollments[|st'.enrollments| - 1] == Enrollment(enrollmentId, FindProfile(st, userId).value.id, courseSlug);
  }

  /** A request of either handler, with the fresh values it draws. */
  datatype Command =
    | RegisterCmd(user: Principal, req: RegisterStudentRequest, profileId: string, now: int)
    | EnrollCmd(userId: string, courseSlug: string, enrollmentId: string)

  function Apply(st: EducationStore, c: Command): EducationStore {
    match c
    case RegisterCmd(user, req, profileId, now) => RegisterStudent(st, user, req, profileId, now).store
    case EnrollCmd(userId, courseSlug, enrollmentId) => EnrollInCourse(st, userId, courseSlug, enrollmentId).store
  }

  /** The store after handling `cmds` one after another. */
  function Run(st: EducationStore, cmds: seq<Command>): EducationStore
    decreases |cmds|
  {
    if |cmds| == 0 then st else Run(Apply(st, cmds[0]), cmds[1..])
  }

  /** In sequential use, starting from empty repositories (or any consistent
      state), there is never
      more than one profile per user or one enrollment per (student,
      course), and every enrollment has been announced exactly once. */
  lemma {:induction false} SequentialUseIsConsistent(st: EducationStore, cmds: seq<Command>)
    requires Consistent(st)
    ensures Consistent(Run(st, cmds))
    decreases |cmds|
  {
    if |cmds| > 0 {
      SequentialUseIsConsistent(Apply(st, cmds[0]), cmds[1..]);
    }
  }
}
