/** `staff_grading_data`: one entry per student module of the block, built
    from the module's already-decoded JSON state. */
module StaffGrading {
  import opened Json

  /** A row of the per-student state query: its id, the student's username and
      full name, and the decoded state dictionary. */
  datatype StudentModule = StudentModule(id: int, username: string, fullname: string,
                                         state: map<string, JsonValue>)

  /** One entry of the `assignments` list. */
  datatype StudentData = StudentData(moduleId: int, username: string, fullname: string,
                                     filename: JsonValue, timestamp: JsonValue, score: JsonValue)

  /** The response body, `{"assignments": [...]}`. */
  datatype GradingData = GradingData(assignments: seq<StudentData>)

  /** `get_student_data`. */
  function GetStudentData(m: StudentModule): StudentData {
    StudentData(m.id, m.username, m.fullname,
                Get(m.state, "uploaded_filename"),
                Get(m.state, "uploaded_timestamp"),
                Get(m.state, "score"))
  }

  /** An entry describes a module: identity copied, and each of the three
      state keys copied when present and null when absent. */
  ghost predicate Describes(d: StudentData, m: StudentModule) {
    && d.moduleId == m.id && d.username == m.username && d.fullname == m.fullname
    && (if "uploaded_filename" in m.state then d.filename == m.state["uploaded_filename"] else d.filename == JNull)
    && (if "uploaded_timestamp" in m.state then d.timestamp == m.state["uploaded_timestamp"] else d.timestamp == JNull)
    && (if "score" in m.state then d.score == m.state["score"] else d.score == JNull)
  }

  /** The list comprehension over the query. */
  function Assignments(query: seq<StudentModule>): (r: seq<StudentData>)
    ensures |r| == |query|
    ensures forall i :: 0 <= i < |query| ==> Describes(r[i], query[i])
    decreases |query|
  {
    if query == [] then [] else [GetStudentData(query[0])] + Assignments(query[1..])
  }

  function StaffGradingData(query: seq<StudentModule>): (r: GradingData)
    ensures |r.assignments| == |query|
    ensures forall i :: 0 <= i < |query| ==> Describes(r.assignments[i], query[i])
  {
    GradingData(Assignments(query))
  }

  /** Entries keep the query's order: the list of a concatenated query is the
      concatenation of the lists. */
  lemma {:induction false} AssignmentsConcat(a: seq<StudentModule>, b: seq<StudentModule>)
    ensures Assignments(a + b) == Assignments(a) + Assignments(b)
    decreases |a|
  {
    if a == [] {
      assert a + b == b;
    } else {
      assert (a + b)[0] == a[0];
      assert (a + b)[1..] == a[1..] + b;
      AssignmentsConcat(a[1..], b);
    }
  }

  /** The list is determined entry by entry: any list describing the query,
      one entry per module, is the list the block returns. */
  lemma AssignmentsUnique(query: seq<StudentModule>, r: seq<StudentData>)
    requires |r| == |query|
    requires forall i :: 0 <= i < |query| ==> Describes(r[i], query[i])
    ensures r == Assignments(query)
  {
  }
}
