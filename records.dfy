/** The rows of the tables: what each entity stores once saved, with every
    relation held as the id it points to. The id of a row is its key in the
    table (see Database). */
module Records {
  import opened Wrappers

  const RoleAdmin := "ROLE_ADMIN"
  const RoleInstructor := "ROLE_INSTRUCTOR"
  const RoleStudent := "ROLE_STUDENT"

  /** A user; its authorities are the names of its roles. */
  datatype UserRow = UserRow(email: string, passwordHash: string, firstName: string,
                             lastName: string, roles: set<string>)

  datatype CategoryRow = CategoryRow(name: string)

  datatype CourseRow = CourseRow(title: string, description: string,
                                 thumbnailUrl: Option<string>, isPublished: Option<bool>,
                                 instructorId: int, categoryId: int)

  datatype ModuleRow = ModuleRow(courseId: int, title: string, description: string,
                                 orderIndex: int)

  datatype LessonRow = LessonRow(moduleId: int, title: string, description: string,
                                 youtubeVideoUrl: string, durationSeconds: Option<int>,
                                 orderIndex: int)

  datatype EnrollmentRow = EnrollmentRow(userId: int, courseId: int, completionStatus: string,
                                         progressPercentage: int, completedLessonIds: set<int>,
                                         lastWatchedLesson: Option<int>)

  /** The authenticated user a request runs as: its id and its authorities. */
  datatype Principal = Principal(id: int, authorities: set<string>)

  /** `getAuthorities().stream().anyMatch(a -> a.getAuthority().equals("ROLE_ADMIN"))` */
  predicate IsAdmin(p: Principal) {
    RoleAdmin in p.authorities
  }
}
