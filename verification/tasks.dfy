/** The task list of one session: a task typed into the entry field is
    appended unless it is blank, and clicking a task flips its completed
    flag. Both operations build a new list rather than changing the old one. */
module Tasks {

  /** A task as the list holds it. The id is the clock reading taken when the
      task was added, so nothing makes two ids differ. */
  datatype Task = Task(id: int, text: string, completed: bool)

  /** The characters that the ECMAScript `trim` removes from either end of a
      string: WhiteSpace (including U+FEFF and every Zs character) and
      LineTerminator. */
  predicate IsWhitespace(c: char) {
    c == '\t' || c == '\n' || c == '\U{B}' || c == '\U{C}' || c == '\r' || c == ' '
    || c == '\U{A0}' || c == '\U{1680}' || ('\U{2000}' <= c && c <= '\U{200A}')
    || c == '\U{2028}' || c == '\U{2029}' || c == '\U{202F}' || c == '\U{205F}'
    || c == '\U{3000}' || c == '\U{FEFF}'
  }

  /** The index of the first non-whitespace character of `s` at or after
      `from`, or `|s|` when there is none. */
  function TrimStartIndex(s: string, from: nat): (i: nat)
    requires from <= |s|
    ensures from <= i <= |s|
    ensures forall k :: from <= k < i ==> IsWhitespace(s[k])
    ensures i < |s| ==> !IsWhitespace(s[i])
    decreases |s| - from
  {
    if from < |s| && IsWhitespace(s[from]) then TrimStartIndex(s, from + 1) else from
  }

  /** The end of `s[lo..hi]` once its trailing whitespace is dropped. */
  function TrimEndIndex(s: string, lo: nat, hi: nat): (j: nat)
    requires lo <= hi <= |s|
    ensures lo <= j <= hi
    ensures forall k :: j <= k < hi ==> IsWhitespace(s[k])
    ensures lo < j ==> !IsWhitespace(s[j - 1])
    decreases hi
  {
    if lo < hi && IsWhitespace(s[hi - 1]) then TrimEndIndex(s, lo, hi - 1) else hi
  }

  /** String.prototype.trim: the longest infix of `s` that neither starts nor
      ends with whitespace; it is empty exactly when every character of `s`
      is whitespace. */
  function Trim(s: string): (r: string)
    ensures exists i, j ::
              && 0 <= i <= j <= |s| && r == s[i..j]
              && (forall k :: 0 <= k < i ==> IsWhitespace(s[k]))
              && (forall k :: j <= k < |s| ==> IsWhitespace(s[k]))
    ensures r != [] ==> !IsWhitespace(r[0]) && !IsWhitespace(r[|r| - 1])
    ensures r == [] <==> forall k :: 0 <= k < |s| ==> IsWhitespace(s[k])
  {
    var i := TrimStartIndex(s, 0);
    var j := TrimEndIndex(s, i, |s|);
    s[i..j]
  }

  /** handleAddTask: the entry text is appended as a new, not yet completed
      task unless it is blank once trimmed, in which case the list is left as
      it is. The text is stored untrimmed. */
  function AddTask(tasks: seq<Task>, id: int, text: string): (r: seq<Task>)
    ensures (forall k :: 0 <= k < |text| ==> IsWhitespace(text[k])) ==> r == tasks
    ensures (exists k :: 0 <= k < |text| && !IsWhitespace(text[k])) ==>
      |r| == |tasks| + 1 && r[..|tasks|] == tasks && r[|tasks|] == Task(id, text, false)
  {
    if Trim(text) == [] then tasks else tasks + [Task(id, text, false)]
  }

  /** `t` with its completed flag flipped when its id is `id`. */
  function Flip(t: Task, id: int): Task {
    if t.id == id then t.(completed := !t.completed) else t
  }

  /** handleToggleTask: every task whose id equals `id` has its completed flag
      flipped; every other task, and the order and length of the list, stay
      as they were. */
  function ToggleTask(tasks: seq<Task>, id: int): (r: seq<Task>)
    ensures |r| == |tasks|
    ensures forall i :: 0 <= i < |r| ==>
      r[i].id == tasks[i].id && r[i].text == tasks[i].text
      && (r[i].completed <==> (tasks[i].completed != (tasks[i].id == id)))
  {
    if tasks == [] then [] else [Flip(tasks[0], id)] + ToggleTask(tasks[1..], id)
  }

  /** Toggling an id that no task carries leaves the list unchanged. */
  lemma ToggleAbsent(tasks: seq<Task>, id: int)
    requires forall i :: 0 <= i < |tasks| ==> tasks[i].id != id
    ensures ToggleTask(tasks, id) == tasks
  {
  }

  /** Toggling the same id twice gives back the original list. */
  lemma ToggleTwice(tasks: seq<Task>, id: int)
    ensures ToggleTask(ToggleTask(tasks, id), id) == tasks
  {
  }

  /** Toggles of two ids can be done in either order. */
  lemma ToggleCommutes(tasks: seq<Task>, a: int, b: int)
    ensures ToggleTask(ToggleTask(tasks, a), b) == ToggleTask(ToggleTask(tasks, b), a)
  {
  }
}
