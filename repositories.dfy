/** The derived queries of the Spring Data repositories, as the sets of ids of
    the rows they match; a single-result finder then goes through `Single`. */
module Repositories {
  import opened Wrappers
  import opened Text
  import opened Records

  /** `UserRepository.findByEmail` */
  function UsersWithEmail(users: map<int, UserRow>, email: string): set<int> {
    set id | id in users && users[id].email == email
  }

  /** `CategoryRepository.findByName`: exact comparison. */
  function CategoriesNamed(categories: map<int, CategoryRow>, name: string): set<int> {
    set id | id in categories && categories[id].name == name
  }

  /** `CategoryRepository.findByNameIgnoreCase` */
  function CategoriesNamedIgnoreCase(categories: map<int, CategoryRow>, name: string): set<int> {
    set id | id in categories && EqualsIgnoreCase(categories[id].name, name)
  }

  /** `ModuleRepository.findByCourseAndTitle`: exact comparison. */
  function ModulesOfCourseTitled(modules: map<int, ModuleRow>, courseId: int, title: string): set<int> {
    set id | id in modules && modules[id].courseId == courseId && modules[id].title == title
  }

  /** `ModuleRepository.findByTitleIgnoreCase`: over the modules of every course. */
  function ModulesTitledIgnoreCase(modules: map<int, ModuleRow>, title: string): set<int> {
    set id | id in modules && EqualsIgnoreCase(modules[id].title, title)
  }

  /** `ModuleRepository.findByCourseIdAndOrderIndex` */
  function ModulesOfCourseWithOrder(modules: map<int, ModuleRow>, courseId: int, orderIndex: int): set<int> {
    set id | id in modules && modules[id].courseId == courseId && modules[id].orderIndex == orderIndex
  }

  /** `LessonRepository.findByModuleAndOrderIndex` and `findByModuleIdAndOrderIndex` */
  function LessonsOfModuleWithOrder(lessons: map<int, LessonRow>, moduleId: int, orderIndex: int): set<int> {
    set id | id in lessons && lessons[id].moduleId == moduleId && lessons[id].orderIndex == orderIndex
  }

  /** `LessonRepository.findByModuleIdAndTitle`: exact comparison. */
  function LessonsOfModuleTitled(lessons: map<int, LessonRow>, moduleId: int, title: string): set<int> {
    set id | id in lessons && lessons[id].moduleId == moduleId && lessons[id].title == title
  }

  /** `EnrollmentRepository.findByUserAndCourse` */
  function EnrollmentsOf(enrollments: map<int, EnrollmentRow>, userId: int, courseId: int): set<int> {
    set id | id in enrollments && enrollments[id].userId == userId && enrollments[id].courseId == courseId
  }

  /** The lessons `LessonRepository.countByCourseId` counts: those whose module
      belongs to the course. */
  function LessonsOfCourse(lessons: map<int, LessonRow>, modules: map<int, ModuleRow>, courseId: int): set<int> {
    set id | id in lessons && lessons[id].moduleId in modules && modules[lessons[id].moduleId].courseId == courseId
  }

  /** A set of ids holds at least as many ids as any subset of it. */
  lemma SubsetSize(a: set<int>, b: set<int>)
    requires a <= b
    ensures |a| <= |b|
  {
    assert b == a + (b - a);
  }
}
