/**
 * The three entities of the tracker (Models/Task.cs, Models/User.cs,
 * Models/Project.cs) and the error kinds the stores and services raise.
 */
module Models {
  import opened Wrappers

  const MinInt32: int := -0x8000_0000
  const MaxInt32: int := 0x7fff_ffff

  /** C#'s `int`: every identifier and id reference is a 32-bit signed integer. */
  type Int32 = x: int | MinInt32 <= x <= MaxInt32

  /**
   * C#'s unchecked `a + b` on `int`: the mathematical sum taken modulo 2^32
   * into the signed range (so `int.MaxValue + 1` is `int.MinValue`).
   */
  function AddInt32(a: Int32, b: Int32): (r: Int32)
    ensures MinInt32 <= a + b <= MaxInt32 ==> r == a + b
    ensures (a + b - r) % 0x1_0000_0000 == 0
  {
    var s := a + b;
    if s > MaxInt32 then s - 0x1_0000_0000
    else if s < MinInt32 then s + 0x1_0000_0000
    else s
  }

  /** `DateTime` as an abstract, totally ordered clock reading (ticks). */
  type Timestamp = int

  datatype ProjectTaskStatus = ToDo | InProgress | Done

  datatype UserRole = Employee | Manager

  /**
   * Every entity has an integer `Id` that its store assigns; the rest of the
   * record is `data`. One generic store handles all three kinds.
   */
  datatype Entity<D> = Entity(id: Int32, data: D)

  /** The fields of `ProjectTask` other than `Id`. */
  datatype TaskInfo = TaskInfo(
    projectId: Int32,
    title: string,
    description: string,
    status: ProjectTaskStatus,
    assignedToUserId: Int32,
    createdAt: Timestamp,
    updatedAt: Option<Timestamp>)

  /** The fields of `User` other than `Id`. */
  datatype UserInfo = UserInfo(
    username: string,
    passwordHash: string,
    role: UserRole,
    createdAt: Timestamp)

  /**
   * The fields of `Project` other than `Id` and the never-populated `Tasks`
   * list. `name` is nullable: it is the one string the core tests for null.
   */
  datatype ProjectInfo = ProjectInfo(
    name: Option<string>,
    description: string,
    createdAt: Timestamp)

  type ProjectTask = Entity<TaskInfo>
  type User = Entity<UserInfo>
  type Project = Entity<ProjectInfo>

  /** Which store a missing id was looked up in. */
  datatype EntityKind = TaskKind | UserKind | ProjectKind

  /**
   * The exceptions of the core: `KeyNotFoundException` (with the kind and id
   * its message names), `ArgumentException` (with its parameter name) and
   * `InvalidOperationException` (duplicate username).
   */
  datatype Error =
    | KeyNotFound(kind: EntityKind, id: int)
    | InvalidArgument(paramName: string)
    | InvalidOperation

  /**
   * `char.IsWhiteSpace` of .NET: the Unicode space, line and paragraph
   * separators plus the control characters U+0009..U+000D and U+0085.
   */
  predicate IsWhiteSpace(c: char) {
    var n := c as int;
    (0x09 <= n <= 0x0D) || n == 0x20 || n == 0x85 || n == 0xA0 || n == 0x1680 ||
    (0x2000 <= n <= 0x200A) || n == 0x2028 || n == 0x2029 || n == 0x202F ||
    n == 0x205F || n == 0x3000
  }

  /** Scans `t` from the front and stops at the first non-whitespace character. */
  function AllWhiteSpace(t: string): (r: bool)
    ensures r <==> forall i :: 0 <= i < |t| ==> IsWhiteSpace(t[i])
  {
    if |t| == 0 then true
    else IsWhiteSpace(t[0]) && AllWhiteSpace(t[1..])
  }

  /**
   * `string.IsNullOrWhiteSpace`: true for null, for the empty string and for
   * a string made only of `char.IsWhiteSpace` characters.
   */
  function IsNullOrWhiteSpace(s: Option<string>): (r: bool)
    ensures r <==> s.None? || forall i :: 0 <= i < |s.value| ==> IsWhiteSpace(s.value[i])
    ensures s == Some("") ==> r
  {
    match s
    case None => true
    case Some(t) => AllWhiteSpace(t)
  }
}
