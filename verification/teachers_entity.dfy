/** The Teacher record a session's `teacherId` resolves to. */
module TeachersEntity {

  datatype Teacher = Teacher(id: string, name: string, email: string, hourlyRate: real, isActive: bool)
}
