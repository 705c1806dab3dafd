/** The Session record: one teaching event, referencing a teacher and a
    package by id. Only confirmed sessions enter payroll and package-activity
    figures; `duration` is measured in hours. */
module SessionsEntity {
  import opened Wrappers
  import opened Calendar

  datatype Session = Session(
    id: string,
    teacherId: string,
    packageId: string,
    sessionDate: Instant,
    duration: real,
    title: Option<string>,
    notes: Option<string>,
    isConfirmed: bool)

  /** Saving a session document: `isConfirmed` defaults to true; the two
      references, the date and the duration are required fields. */
  function NewSession(id: string, teacherId: string, packageId: string, sessionDate: Instant,
                      duration: real, title: Option<string>, notes: Option<string>,
                      isConfirmed: Option<bool>): (s: Session)
    ensures s.isConfirmed <==> isConfirmed != Some(false)
    ensures s.teacherId == teacherId && s.packageId == packageId
    ensures s.sessionDate == sessionDate && s.duration == duration
  {
    Session(id, teacherId, packageId, sessionDate, duration, title, notes, isConfirmed.GetOr(true))
  }
}
