/**
 * The browser's `localStorage`, as one object with a typed field per key
 * instead of JSON strings. A field left at its initial value stands for a
 * key that was never written.
 */
module Storage {
  import opened Wrappers
  import opened Types

  class LocalStore {
    /** The built-in data compiled into the application. */
    const catalog: Catalog

    var additionalQuestions: seq<Question>        // 'additionalQuestions'
    var modifiedQuestions: seq<QuestionPatch>     // 'modifiedQuestions'
    var additionalBonusQuestions: seq<Question>   // 'additionalBonusQuestions'
    var modifiedBonusQuestions: seq<Question>     // 'modifiedBonusQuestions'
    var additionalStudents: seq<Student>          // 'additionalStudents'
    var modifiedStudents: map<string, string>     // 'modifiedStudents'
    var studentPenalties: map<string, int>        // 'studentPenalties'
    var quizResults: seq<QuizResult>              // 'quizResults'
    var sessions: seq<DeviceSession>              // 'sessions'
    var deviceId: Option<string>                  // 'deviceId'
    var regNumber: Option<string>                 // 'regNumber'
    var lastLoginTime: Option<int>                // 'lastLoginTime', parsed
    var quizSettings: Option<QuizSettings>        // 'quizSettings'

    constructor (catalog: Catalog)
      ensures this.catalog == catalog
      ensures additionalQuestions == [] && modifiedQuestions == []
      ensures additionalBonusQuestions == [] && modifiedBonusQuestions == []
      ensures additionalStudents == [] && modifiedStudents == map[] && studentPenalties == map[]
      ensures quizResults == [] && sessions == []
      ensures deviceId == None && regNumber == None && lastLoginTime == None && quizSettings == None
    {
      this.catalog := catalog;
      additionalQuestions, modifiedQuestions := [], [];
      additionalBonusQuestions, modifiedBonusQuestions := [], [];
      additionalStudents, modifiedStudents, studentPenalties := [], map[], map[];
      quizResults, sessions := [], [];
      deviceId, regNumber, lastLoginTime, quizSettings := None, None, None, None;
    }
  }
}
