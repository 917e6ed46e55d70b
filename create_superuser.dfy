/**
 * The `createsuperuser` script of scripts/createsuperuser.ts.
 *
 * The terminal is a `Console` object: the answers waiting for the line
 * prompts, the raw key chunks waiting for the hidden password prompt, and the
 * lines the password prompt has echoed.  The `user` table is a `UserTable`
 * object.  `promptPassword` is a loop over key chunks, `createSuperuser` a
 * chain of guards that each end the script; both are methods proved against
 * the pure functions `ScanFrom` and `Script`.
 */
module CreateSuperuser {
  import opened Wrappers
  import opened JsString

  // ---------------------------------------------------------------------------
  // The password reader
  // ---------------------------------------------------------------------------

  /** What a raw key chunk does to the password being typed. */
  datatype KeyAction = Finish | Abort | Erase | Append(chunk: string)

  /** The `switch` of `onData`: Enter, Return or Ctrl+D finish, Ctrl+C aborts, Delete or Backspace erase. */
  function Classify(chunk: string): (a: KeyAction)
    ensures a.Finish? <==> chunk == "\n" || chunk == "\r" || chunk == "\U{4}"
    ensures a.Abort? <==> chunk == "\U{3}"
    ensures a.Erase? <==> chunk == "\U{7F}" || chunk == "\U{8}"
    ensures a.Append? ==> a.chunk == chunk
  {
    if chunk == "\n" || chunk == "\r" || chunk == "\U{4}" then Finish
    else if chunk == "\U{3}" then Abort
    else if chunk == "\U{7F}" || chunk == "\U{8}" then Erase
    else Append(chunk)
  }

  predicate Terminates(chunk: string) {
    Classify(chunk).Finish? || Classify(chunk).Abort?
  }

  /**
   * The buffer after a chunk that does not end the prompt: an ordinary chunk is
   * appended, Delete or Backspace drops the last character, if any.
   */
  function Edit(buffer: string, chunk: string): (r: string)
    ensures Classify(chunk).Append? ==> buffer <= r && r[|buffer|..] == chunk
    ensures Classify(chunk).Erase? ==> r <= buffer && |r| == if buffer == [] then 0 else |buffer| - 1
    ensures Terminates(chunk) ==> r == buffer
  {
    match Classify(chunk)
    case Erase => if |buffer| > 0 then buffer[..|buffer| - 1] else buffer
    case Append(c) => buffer + c
    case _ => buffer
  }

  /** The buffer after a sequence of chunks none of which ends the prompt; ordinary chunks alone are simply appended. */
  function Typed(buffer: string, chunks: seq<string>): (r: string)
    ensures (forall i :: 0 <= i < |chunks| ==> Classify(chunks[i]).Append?) ==> r == buffer + Concat(chunks)
    decreases |chunks|
  {
    if chunks == [] then buffer
    else
      assert buffer + chunks[0] + Concat(chunks[1..]) == buffer + Concat(chunks);
      Typed(Edit(buffer, chunks[0]), chunks[1..])
  }

  /** An echoed line: the question followed by stars only. */
  predicate StarLine(question: string, e: string) {
    question <= e && e[|question|..] == Stars(|e| - |question|)
  }

  /**
   * What one chunk echoes: the question followed by one star per buffered
   * character, except that Delete on an empty buffer echoes nothing.
   */
  function EchoOf(question: string, before: string, chunk: string): (r: seq<string>)
    ensures |r| <= 1
    ensures r == [] <==> Classify(chunk).Erase? && before == []
    ensures forall e :: e in r ==> StarLine(question, e) && |e| == |question| + |Edit(before, chunk)|
  {
    if Classify(chunk).Erase? && before == [] then []
    else
      var e := question + Stars(|Edit(before, chunk)|);
      assert e[|question|..] == Stars(|Edit(before, chunk)|);
      [e]
  }

  function Echoes(question: string, buffer: string, chunks: seq<string>): seq<string>
    decreases |chunks|
  {
    if chunks == [] then []
    else EchoOf(question, buffer, chunks[0]) + Echoes(question, Edit(buffer, chunks[0]), chunks[1..])
  }

  /** How a password prompt ended: with the typed password, with Ctrl+C, or not at all (the input ran out). */
  datatype Read = Entered(password: string) | Aborted | Unfinished

  /** The result of a prompt and the number of chunks it consumed. */
  datatype Scan = Scan(read: Read, used: nat)

  /**
   * The password prompt started with `buffer` already typed: it reads chunks up
   * to and including the first one that finishes or aborts.
   */
  function ScanFrom(buffer: string, chunks: seq<string>): (r: Scan)
    ensures r.used <= |chunks|
    ensures r.read.Unfinished? <==> r.used == |chunks| && (chunks == [] || !Terminates(chunks[|chunks| - 1]))
    decreases |chunks|
  {
    if chunks == [] then Scan(Unfinished, 0)
    else
      match Classify(chunks[0])
      case Finish => Scan(Entered(buffer), 1)
      case Abort => Scan(Aborted, 1)
      case _ =>
        var rest := ScanFrom(Edit(buffer, chunks[0]), chunks[1..]);
        Scan(rest.read, rest.used + 1)
  }

  /**
   * The prompt ends at the first chunk that finishes or aborts it, and an
   * entered password is what the chunks before that one typed.
   */
  lemma ScanFromShape(buffer: string, chunks: seq<string>)
    ensures var r := ScanFrom(buffer, chunks);
            && (r.read.Unfinished? <==> forall i :: 0 <= i < |chunks| ==> !Terminates(chunks[i]))
            && (!r.read.Unfinished? ==>
                  && 0 < r.used
                  && Terminates(chunks[r.used - 1])
                  && (forall i :: 0 <= i < r.used - 1 ==> !Terminates(chunks[i]))
                  && (r.read.Aborted? <==> Classify(chunks[r.used - 1]).Abort?))
            && (r.read.Entered? ==> r.read.password == Typed(buffer, chunks[..r.used - 1]))
  {
    ScanFromEnd(buffer, chunks);
    ScanFromTyped(buffer, chunks);
  }

  lemma {:induction false} ScanFromEnd(buffer: string, chunks: seq<string>)
    ensures var r := ScanFrom(buffer, chunks);
            && (r.read.Unfinished? <==> forall i :: 0 <= i < |chunks| ==> !Terminates(chunks[i]))
            && (!r.read.Unfinished? ==>
                  && 0 < r.used
                  && Terminates(chunks[r.used - 1])
                  && (forall i :: 0 <= i < r.used - 1 ==> !Terminates(chunks[i]))
                  && (r.read.Aborted? <==> Classify(chunks[r.used - 1]).Abort?))
    decreases |chunks|
  {
    if chunks != [] && !Terminates(chunks[0]) {
      var t := chunks[1..];
      ScanFromEnd(Edit(buffer, chunks[0]), t);
      assert forall i :: 1 <= i < |chunks| ==> chunks[i] == t[i - 1];
    }
  }

  lemma {:induction false} ScanFromTyped(buffer: string, chunks: seq<string>)
    ensures var r := ScanFrom(buffer, chunks);
            r.read.Entered? ==> 0 < r.used && r.read.password == Typed(buffer, chunks[..r.used - 1])
    decreases |chunks|
  {
    if chunks != [] && !Terminates(chunks[0]) {
      var t := chunks[1..];
      var rest := ScanFrom(Edit(buffer, chunks[0]), t);
      ScanFromTyped(Edit(buffer, chunks[0]), t);
      if rest.read.Entered? {
        var typed := chunks[..rest.used];
        assert typed != [] && typed[0] == chunks[0] && typed[1..] == t[..rest.used - 1];
        assert Typed(buffer, typed) == Typed(Edit(buffer, chunks[0]), t[..rest.used - 1]);
      }
    }
  }

  /**
   * Everything a password prompt writes: the question, then star lines only,
   * then a line break when the prompt ended.
   */
  function PasswordEcho(question: string, chunks: seq<string>): (r: seq<string>)
    ensures |r| >= 1 && r[0] == question
    ensures ScanFrom("", chunks).read.Unfinished? ==> forall i :: 1 <= i < |r| ==> StarLine(question, r[i])
    ensures !ScanFrom("", chunks).read.Unfinished? ==>
              r[|r| - 1] == "\n" && forall i :: 1 <= i < |r| - 1 ==> StarLine(question, r[i])
  {
    var s := ScanFrom("", chunks);
    if s.read.Unfinished? then
      EchoShowsOnlyStars(question, "", chunks);
      [question] + Echoes(question, "", chunks)
    else
      EchoShowsOnlyStars(question, "", chunks[..s.used - 1]);
      [question] + Echoes(question, "", chunks[..s.used - 1]) + ["\n"]
  }

  lemma {:induction false} TypedSnoc(buffer: string, chunks: seq<string>, chunk: string)
    ensures Typed(buffer, chunks + [chunk]) == Edit(Typed(buffer, chunks), chunk)
    decreases |chunks|
  {
    if chunks != [] {
      assert (chunks + [chunk])[1..] == chunks[1..] + [chunk];
      TypedSnoc(Edit(buffer, chunks[0]), chunks[1..], chunk);
    }
  }

  lemma {:induction false} EchoesSnoc(question: string, buffer: string, chunks: seq<string>, chunk: string)
    ensures Echoes(question, buffer, chunks + [chunk])
            == Echoes(question, buffer, chunks) + EchoOf(question, Typed(buffer, chunks), chunk)
    decreases |chunks|
  {
    if chunks == [] {
      assert chunks + [chunk] == [chunk];
    } else {
      var t := chunks[1..];
      assert (chunks + [chunk])[0] == chunks[0] && (chunks + [chunk])[1..] == t + [chunk];
      EchoesSnoc(question, Edit(buffer, chunks[0]), t, chunk);
    }
  }

  /** The terminal: pending answers to line prompts, pending raw key chunks, and the password prompts' output. */
  class Console {
    var lines: seq<string>
    var chunks: seq<string>
    var echo: seq<string>

    constructor (lines: seq<string>, chunks: seq<string>)
      ensures this.lines == lines && this.chunks == chunks && echo == []
    {
      this.lines := lines;
      this.chunks := chunks;
      echo := [];
    }

    /** `prompt(question)`: the next answer, or `None` when no answer comes. */
    method Prompt() returns (answer: Option<string>)
      modifies this
      ensures old(lines) == [] ==> answer == None && lines == []
      ensures old(lines) != [] ==> answer == Some(old(lines)[0]) && lines == old(lines)[1..]
      ensures chunks == old(chunks) && echo == old(echo)
    {
      if lines == [] {
        answer := None;
      } else {
        answer := Some(lines[0]);
        lines := lines[1..];
      }
    }

    /** `promptPassword(question)`: reads raw chunks until one finishes or aborts the prompt. */
    method PromptPassword(question: string) returns (read: Read)
      modifies this
      ensures read == ScanFrom("", old(chunks)).read
      ensures chunks == old(chunks)[ScanFrom("", old(chunks)).used..]
      ensures echo == old(echo) + PasswordEcho(question, old(chunks))
      ensures lines == old(lines)
    {
      ghost var orig := chunks;
      ghost var n: nat := 0;
      var pending := chunks;
      var written := [question];
      var password := "";
      while pending != []
        invariant n <= |orig| && pending == orig[n..]
        invariant password == Typed("", orig[..n])
        invariant written == [question] + Echoes(question, "", orig[..n])
        invariant ScanFrom("", orig).read == ScanFrom(password, pending).read
        invariant ScanFrom("", orig).used == n + ScanFrom(password, pending).used
        invariant lines == old(lines) && chunks == old(chunks) && echo == old(echo)
        decreases |pending|
      {
        var chunk := pending[0];
        pending := pending[1..];
        var action := Classify(chunk);
        if action.Finish? || action.Abort? {
          assert chunk == orig[n] && pending == orig[n + 1..];
          ReadEnds(question, orig, n, password);
          read := if action.Finish? then Entered(password) else Aborted;
          assert ScanFrom("", orig) == Scan(read, n + 1);
          assert PasswordEcho(question, orig) == written + ["\n"];
          chunks := pending;
          echo := echo + (written + ["\n"]);
          return;
        }
        ReadStep(question, orig, n, password);
        ScanStep(orig, n, password);
        var shown;
        password, shown := Key(question, password, chunk);
        AppendAssoc([question], Echoes(question, "", orig[..n]), shown);
        written := written + shown;
        n := n + 1;
      }
      assert orig[..n] == orig;
      assert ScanFrom("", orig).read.Unfinished? && PasswordEcho(question, orig) == written;
      chunks := pending;
      echo := echo + written;
      return Unfinished;
    }
  }

  /** The Delete, Backspace and default branches of `onData`: the new buffer and the echo, if any. */
  method Key(question: string, password: string, chunk: string) returns (next: string, shown: seq<string>)
    requires !Terminates(chunk)
    ensures next == Edit(password, chunk) && shown == EchoOf(question, password, chunk)
  {
    next, shown := password, [];
    match Classify(chunk) {
      case Erase =>
        if |password| > 0 {
          next := password[..|password| - 1];
          shown := [question + Stars(|next|)];
        }
      case Append(c) =>
        next := password + c;
        shown := [question + Stars(|next|)];
    }
  }

  /** The chunk that finishes or aborts the prompt, and what has been echoed by then. */
  lemma ReadEnds(question: string, chunks: seq<string>, n: nat, buffer: string)
    requires n < |chunks| && Terminates(chunks[n])
    requires ScanFrom("", chunks).read == ScanFrom(buffer, chunks[n..]).read
    requires ScanFrom("", chunks).used == n + ScanFrom(buffer, chunks[n..]).used
    ensures ScanFrom("", chunks) == Scan(if Classify(chunks[n]).Abort? then Aborted else Entered(buffer), n + 1)
    ensures PasswordEcho(question, chunks) == [question] + Echoes(question, "", chunks[..n]) + ["\n"]
  {
    assert chunks[n..][0] == chunks[n];
  }

  /** One chunk that neither finishes nor aborts: the buffer, the echo and the rest of the scan move on by that chunk. */
  lemma ReadStep(question: string, chunks: seq<string>, n: nat, buffer: string)
    requires n < |chunks| && !Terminates(chunks[n]) && buffer == Typed("", chunks[..n])
    ensures Typed("", chunks[..n + 1]) == Edit(buffer, chunks[n])
    ensures Echoes(question, "", chunks[..n + 1]) == Echoes(question, "", chunks[..n]) + EchoOf(question, buffer, chunks[n])
  {
    PrefixSnoc(chunks, n);
    TypedSnoc("", chunks[..n], chunks[n]);
    EchoesSnoc(question, "", chunks[..n], chunks[n]);
  }

  /** One more element of a prefix. */
  lemma PrefixSnoc(chunks: seq<string>, n: nat)
    requires n < |chunks|
    ensures chunks[..n + 1] == chunks[..n] + [chunks[n]]
  {
  }

  /** The scan from a chunk that neither finishes nor aborts goes on from the next chunk with the edited buffer. */
  lemma ScanStep(chunks: seq<string>, n: nat, buffer: string)
    requires n < |chunks| && !Terminates(chunks[n])
    ensures ScanFrom(buffer, chunks[n..]) == Scan(ScanFrom(Edit(buffer, chunks[n]), chunks[n + 1..]).read,
                                                 ScanFrom(Edit(buffer, chunks[n]), chunks[n + 1..]).used + 1)
  {
    assert chunks[n..][0] == chunks[n] && chunks[n..][1..] == chunks[n + 1..];
  }

  // ---------------------------------------------------------------------------
  // What the password reader promises
  // ---------------------------------------------------------------------------

  function Concat(parts: seq<string>): string
    decreases |parts|
  {
    if parts == [] then [] else parts[0] + Concat(parts[1..])
  }

  /** Typing ordinary chunks and pressing Return enters exactly what was typed. */
  lemma {:induction false} TypedPassword(buffer: string, typed: seq<string>)
    requires forall i :: 0 <= i < |typed| ==> Classify(typed[i]).Append?
    ensures ScanFrom(buffer, typed + ["\r"]) == Scan(Entered(buffer + Concat(typed)), |typed| + 1)
    decreases |typed|
  {
    if typed == [] {
      assert typed + ["\r"] == ["\r"];
    } else {
      var t := typed[1..];
      assert (typed + ["\r"])[0] == typed[0] && (typed + ["\r"])[1..] == t + ["\r"];
      TypedPassword(buffer + typed[0], t);
      assert buffer + typed[0] + Concat(t) == buffer + Concat(typed);
    }
  }

  /** Delete on an empty buffer changes nothing and echoes nothing. */
  lemma EraseOnEmpty(question: string, chunk: string, rest: seq<string>)
    requires Classify(chunk).Erase?
    ensures ScanFrom("", [chunk] + rest) == Scan(ScanFrom("", rest).read, ScanFrom("", rest).used + 1)
    ensures Echoes(question, "", [chunk] + rest) == Echoes(question, "", rest)
  {
    assert ([chunk] + rest)[1..] == rest;
  }

  /** Delete right after an ordinary one-character key takes that key back. */
  lemma EraseUndoesKey(buffer: string, key: char, erase: string)
    requires Classify([key]).Append? && Classify(erase).Erase?
    ensures Edit(Edit(buffer, [key]), erase) == buffer
  {
    assert (buffer + [key])[..|buffer|] == buffer;
  }

  /** The echo never shows a typed character: each echoed line is the question and stars. */
  lemma {:induction false} EchoShowsOnlyStars(question: string, buffer: string, chunks: seq<string>)
    ensures forall e :: e in Echoes(question, buffer, chunks) ==> StarLine(question, e)
    decreases |chunks|
  {
    if chunks != [] {
      EchoShowsOnlyStars(question, Edit(buffer, chunks[0]), chunks[1..]);
      var n := |Edit(buffer, chunks[0])|;
      assert (question + Stars(n))[|question|..] == Stars(n);
    }
  }

  // ---------------------------------------------------------------------------
  // The script
  // ---------------------------------------------------------------------------

  /** A row of the `user` table; the names and the password hash may be null. */
  datatype UserRow = UserRow(
    id: string,
    email: string,
    firstName: Option<string>,
    lastName: Option<string>,
    password: Option<string>,
    isSuperuser: bool)

  predicate HasEmail(rows: seq<UserRow>, email: string) {
    exists row :: row in rows && row.email == email
  }

  /**
   * The primary key on `id` and the unique index on `email`: a row whose email
   * is stored already conflicts, and nothing conflicts in an empty table.
   */
  predicate Conflicts(rows: seq<UserRow>, row: UserRow)
    ensures HasEmail(rows, row.email) ==> Conflicts(rows, row)
    ensures rows == [] ==> !Conflicts(rows, row)
  {
    exists other :: other in rows && (other.id == row.id || other.email == row.email)
  }

  /** How the script ends.  Every outcome but `Created` and `Cancelled` exits with status 1; `Waiting` never ends. */
  datatype Outcome =
    | InvalidEmail
    | AlreadyExists
    | MissingFirstName
    | MissingLastName
    | ShortPassword
    | PasswordMismatch
    | Cancelled
    | InsertFailed
    | Waiting
    | Created(user: UserRow)

  const MinPasswordLength: nat := 6
  const PasswordQuestion := "Password: "
  const ConfirmQuestion := "Password (again): "

  /** The outcome, the line answers and key chunks consumed, and the password prompts' output. */
  datatype ScriptRun = ScriptRun(outcome: Outcome, linesUsed: nat, chunksUsed: nat, echo: seq<string>)

  /** The record the script inserts. */
  function NewUser(id: string, email: string, firstName: string, lastName: string, hashed: string): (row: UserRow)
    ensures row.isSuperuser && row.email == Trim(email)
    ensures row.firstName == Some(Trim(firstName)) && row.lastName == Some(Trim(lastName))
  {
    UserRow(id, Trim(email), Some(Trim(firstName)), Some(Trim(lastName)), Some(hashed), true)
  }

  /** The two password prompts and the insert, once email and names are accepted. */
  function PasswordStage(chunks: seq<string>, rows: seq<UserRow>, hash: string -> string,
                         newId: string, email: string, firstName: string, lastName: string): (r: ScriptRun)
    ensures r.chunksUsed <= |chunks| && r.linesUsed == 3
  {
    var first := ScanFrom("", chunks);
    var echo := PasswordEcho(PasswordQuestion, chunks);
    match first.read
    case Unfinished => ScriptRun(Waiting, 3, first.used, echo)
    case Aborted => ScriptRun(Cancelled, 3, first.used, echo)
    case Entered(password) =>
      if |password| < MinPasswordLength then ScriptRun(ShortPassword, 3, first.used, echo)
      else
        var row := NewUser(newId, email, firstName, lastName, hash(password));
        var second := ConfirmStage(chunks[first.used..], rows, password, row);
        ScriptRun(second.outcome, 3, first.used + second.chunksUsed, echo + second.echo)
  }

  /** Once the first password is entered and long enough, the rest of the stage is the confirmation stage. */
  lemma PasswordStageAfterFirst(chunks: seq<string>, rows: seq<UserRow>, hash: string -> string,
                                newId: string, email: string, firstName: string, lastName: string)
    requires ScanFrom("", chunks).read.Entered? && |ScanFrom("", chunks).read.password| >= MinPasswordLength
    ensures var first := ScanFrom("", chunks);
            var row := NewUser(newId, email, firstName, lastName, hash(first.read.password));
            var second := ConfirmStage(chunks[first.used..], rows, first.read.password, row);
            PasswordStage(chunks, rows, hash, newId, email, firstName, lastName)
            == ScriptRun(second.outcome, 3, first.used + second.chunksUsed, PasswordEcho(PasswordQuestion, chunks) + second.echo)
  {
  }

  /** A first read that ends the input, is aborted or is too short ends the stage after that read. */
  lemma PasswordStageStops(chunks: seq<string>, rows: seq<UserRow>, hash: string -> string,
                           newId: string, email: string, firstName: string, lastName: string)
    requires var first := ScanFrom("", chunks);
             !first.read.Entered? || |first.read.password| < MinPasswordLength
    ensures var first := ScanFrom("", chunks);
            PasswordStage(chunks, rows, hash, newId, email, firstName, lastName)
            == ScriptRun(if first.read.Unfinished? then Waiting else if first.read.Aborted? then Cancelled else ShortPassword,
                         3, first.used, PasswordEcho(PasswordQuestion, chunks))
  {
  }

  /** The confirmation prompt and the insert of `row`, counted from the confirmation prompt on. */
  function ConfirmStage(chunks: seq<string>, rows: seq<UserRow>, password: string, row: UserRow): (r: ScriptRun)
    ensures r.chunksUsed <= |chunks| && r.linesUsed == 3
  {
    var second := ScanFrom("", chunks);
    var echo := PasswordEcho(ConfirmQuestion, chunks);
    match second.read
    case Unfinished => ScriptRun(Waiting, 3, second.used, echo)
    case Aborted => ScriptRun(Cancelled, 3, second.used, echo)
    case Entered(confirmation) =>
      if password != confirmation then ScriptRun(PasswordMismatch, 3, second.used, echo)
      else if Conflicts(rows, row) then ScriptRun(InsertFailed, 3, second.used, echo)
      else ScriptRun(Created(row), 3, second.used, echo)
  }

  /**
   * `createSuperuser()` on the given answers, key chunks and table, with
   * `hash` for bcrypt and `newId` for the generated primary key.
   */
  function Script(lines: seq<string>, chunks: seq<string>, rows: seq<UserRow>, hash: string -> string, newId: string): (r: ScriptRun)
    ensures r.linesUsed <= |lines| && r.chunksUsed <= |chunks|
  {
    if |lines| == 0 then ScriptRun(Waiting, 0, 0, [])
    else if lines[0] == [] || '@' !in lines[0] then ScriptRun(InvalidEmail, 1, 0, [])
    else if HasEmail(rows, lines[0]) then ScriptRun(AlreadyExists, 1, 0, [])
    else if |lines| == 1 then ScriptRun(Waiting, 1, 0, [])
    else if Trim(lines[1]) == [] then ScriptRun(MissingFirstName, 2, 0, [])
    else if |lines| == 2 then ScriptRun(Waiting, 2, 0, [])
    else if Trim(lines[2]) == [] then ScriptRun(MissingLastName, 3, 0, [])
    else PasswordStage(chunks, rows, hash, newId, lines[0], lines[1], lines[2])
  }

  /** An empty email, or one without "@", ends the script before anything else is asked. */
  lemma InvalidEmailStops(lines: seq<string>, chunks: seq<string>, rows: seq<UserRow>, hash: string -> string, newId: string)
    requires lines != [] && (lines[0] == [] || '@' !in lines[0])
    ensures Script(lines, chunks, rows, hash, newId) == ScriptRun(InvalidEmail, 1, 0, [])
  {
  }

  /** An email that an existing user has exactly ends the script before the name prompts. */
  lemma ExistingEmailStops(lines: seq<string>, chunks: seq<string>, rows: seq<UserRow>, hash: string -> string, newId: string)
    requires lines != [] && '@' in lines[0]
    ensures HasEmail(rows, lines[0]) <==> Script(lines, chunks, rows, hash, newId) == ScriptRun(AlreadyExists, 1, 0, [])
  {
    if !HasEmail(rows, lines[0]) && |lines| >= 3 && Trim(lines[1]) != [] && Trim(lines[2]) != [] {
      var stage := PasswordStage(chunks, rows, hash, newId, lines[0], lines[1], lines[2]);
      assert Script(lines, chunks, rows, hash, newId) == stage && stage.linesUsed == 3;
    }
  }

  /** A first name that is blank after trimming is refused before the last name is asked. */
  lemma BlankFirstNameStops(lines: seq<string>, chunks: seq<string>, rows: seq<UserRow>, hash: string -> string, newId: string)
    requires |lines| >= 2 && lines[0] != [] && '@' in lines[0] && !HasEmail(rows, lines[0])
    requires Trim(lines[1]) == []
    ensures Script(lines, chunks, rows, hash, newId) == ScriptRun(MissingFirstName, 2, 0, [])
  {
  }

  /** A last name that is blank after trimming is refused before the password is asked. */
  lemma BlankLastNameStops(lines: seq<string>, chunks: seq<string>, rows: seq<UserRow>, hash: string -> string, newId: string)
    requires |lines| >= 3 && lines[0] != [] && '@' in lines[0] && !HasEmail(rows, lines[0])
    requires Trim(lines[1]) != [] && Trim(lines[2]) == []
    ensures Script(lines, chunks, rows, hash, newId) == ScriptRun(MissingLastName, 3, 0, [])
  {
    var first, last := Trim(lines[1]), Trim(lines[2]);
    assert first != [] && last == [];
  }

  /**
   * All the checks of the script, as one predicate over its inputs.  An accepted
   * run stores a trimmed email that no user has, and its first password ends
   * before the last key chunk, which leaves the confirmation some input.
   */
  ghost predicate Accepted(lines: seq<string>, chunks: seq<string>, rows: seq<UserRow>, hash: string -> string, newId: string)
    ensures Accepted(lines, chunks, rows, hash, newId) ==>
              && |lines| >= 3 && !HasEmail(rows, Trim(lines[0]))
              && 0 < ScanFrom("", chunks).used < |chunks|
  {
    ScanFromShape("", chunks);
    && |lines| >= 3
    && lines[0] != [] && '@' in lines[0] && !HasEmail(rows, lines[0])
    && Trim(lines[1]) != [] && Trim(lines[2]) != []
    && var first := ScanFrom("", chunks);
       && first.read.Entered?
       && |first.read.password| >= MinPasswordLength
       && ScanFrom("", chunks[first.used..]).read == first.read
       && !Conflicts(rows, NewUser(newId, lines[0], lines[1], lines[2], hash(first.read.password)))
  }

  /** The script creates a user exactly when every check passes. */
  lemma CreatedIffAccepted(lines: seq<string>, chunks: seq<string>, rows: seq<UserRow>, hash: string -> string, newId: string)
    ensures Script(lines, chunks, rows, hash, newId).outcome.Created? <==> Accepted(lines, chunks, rows, hash, newId)
  {
    if |lines| >= 3 && lines[0] != [] && '@' in lines[0] && !HasEmail(rows, lines[0]) {
      var firstName, lastName := Trim(lines[1]), Trim(lines[2]);
      if firstName != [] && lastName != [] {
        assert Script(lines, chunks, rows, hash, newId) == PasswordStage(chunks, rows, hash, newId, lines[0], lines[1], lines[2]);
        PasswordStageCreated(chunks, rows, hash, newId, lines[0], lines[1], lines[2]);
      }
    }
  }

  /** The password stage creates a user exactly when both reads agree on a long-enough password and the insert succeeds. */
  lemma PasswordStageCreated(chunks: seq<string>, rows: seq<UserRow>, hash: string -> string,
                             newId: string, email: string, firstName: string, lastName: string)
    ensures var first := ScanFrom("", chunks);
            PasswordStage(chunks, rows, hash, newId, email, firstName, lastName).outcome.Created?
            <==> && first.read.Entered?
                 && |first.read.password| >= MinPasswordLength
                 && ScanFrom("", chunks[first.used..]).read == first.read
                 && !Conflicts(rows, NewUser(newId, email, firstName, lastName, hash(first.read.password)))
  {
    var first := ScanFrom("", chunks);
    if first.read.Entered? && |first.read.password| >= MinPasswordLength {
      PasswordStageAfterFirst(chunks, rows, hash, newId, email, firstName, lastName);
      var row := NewUser(newId, email, firstName, lastName, hash(first.read.password));
      ConfirmStageCreated(chunks[first.used..], rows, first.read.password, row);
    } else {
      assert !PasswordStage(chunks, rows, hash, newId, email, firstName, lastName).outcome.Created?;
    }
  }

  /** The confirmation stage creates `row` exactly when the confirmation matches and the insert succeeds. */
  lemma ConfirmStageCreated(chunks: seq<string>, rows: seq<UserRow>, password: string, row: UserRow)
    ensures ConfirmStage(chunks, rows, password, row).outcome.Created?
            <==> ScanFrom("", chunks).read == Entered(password) && !Conflicts(rows, row)
    ensures ConfirmStage(chunks, rows, password, row).outcome.Created? ==> ConfirmStage(chunks, rows, password, row).outcome.user == row
  {
  }

  /**
   * The user the script creates is a superuser with the trimmed email and
   * names and the hash of the password typed twice.
   */
  lemma CreatedUser(lines: seq<string>, chunks: seq<string>, rows: seq<UserRow>, hash: string -> string, newId: string)
    requires Accepted(lines, chunks, rows, hash, newId)
    ensures var user := Script(lines, chunks, rows, hash, newId).outcome.user;
            && Script(lines, chunks, rows, hash, newId).outcome.Created?
            && user.isSuperuser
            && user.email == Trim(lines[0])
            && user.firstName == Some(Trim(lines[1]))
            && user.lastName == Some(Trim(lines[2]))
            && user.password == Some(hash(ScanFrom("", chunks).read.password))
  {
    var firstName, lastName := Trim(lines[1]), Trim(lines[2]);
    assert Script(lines, chunks, rows, hash, newId) == PasswordStage(chunks, rows, hash, newId, lines[0], lines[1], lines[2]);
    PasswordStageAfterFirst(chunks, rows, hash, newId, lines[0], lines[1], lines[2]);
  }

  /**
   * The existence check compares the email as typed, the insert stores it
   * trimmed: an email typed with surrounding blanks that an existing user has
   * once trimmed is not reported as taken, and the insert is refused instead.
   */
  lemma PaddedExistingEmail(lines: seq<string>, chunks: seq<string>, rows: seq<UserRow>, hash: string -> string, newId: string)
    requires |lines| >= 3 && lines[0] != [] && '@' in lines[0] && !HasEmail(rows, lines[0]) && HasEmail(rows, Trim(lines[0]))
    requires Trim(lines[1]) != [] && Trim(lines[2]) != []
    requires var first := ScanFrom("", chunks);
             first.read.Entered? && |first.read.password| >= MinPasswordLength
             && ScanFrom("", chunks[first.used..]).read == first.read
    ensures Script(lines, chunks, rows, hash, newId).outcome == InsertFailed
  {
    var first := ScanFrom("", chunks);
    var row := NewUser(newId, lines[0], lines[1], lines[2], hash(first.read.password));
    var other :| other in rows && other.email == Trim(lines[0]);
    assert Conflicts(rows, row);
    PasswordStageAfterFirst(chunks, rows, hash, newId, lines[0], lines[1], lines[2]);
  }

  /** The `user` table. */
  class UserTable {
    var rows: seq<UserRow>

    constructor (rows: seq<UserRow>)
      ensures this.rows == rows
    {
      this.rows := rows;
    }

    /** The existence check `select ... where email = ? limit 1`. */
    method FindByEmail(email: string) returns (found: bool)
      ensures found <==> HasEmail(rows, email)
    {
      found := false;
      var i := 0;
      while i < |rows|
        invariant 0 <= i <= |rows|
        invariant !found <==> forall j :: 0 <= j < i ==> rows[j].email != email
      {
        if rows[i].email == email {
          found := true;
        }
        i := i + 1;
      }
      if !found {
        forall row | row in rows ensures row.email != email {
          var j :| 0 <= j < |rows| && rows[j] == row;
        }
      }
    }

    /** `insert(users).values(row).returning()`: refused when the id or the email is taken. */
    method Insert(row: UserRow) returns (ok: bool)
      modifies this
      ensures ok <==> !Conflicts(old(rows), row)
      ensures rows == if ok then old(rows) + [row] else old(rows)
    {
      ok := true;
      var i := 0;
      while i < |rows|
        invariant 0 <= i <= |rows|
        invariant ok <==> forall j :: 0 <= j < i ==> rows[j].id != row.id && rows[j].email != row.email
      {
        if rows[i].id == row.id || rows[i].email == row.email {
          ok := false;
        }
        i := i + 1;
      }
      if ok {
        forall other | other in rows ensures other.id != row.id && other.email != row.email {
          var j :| 0 <= j < |rows| && rows[j] == other;
        }
        rows := rows + [row];
      }
    }
  }

  /** `createSuperuser()`: each guard that fails ends the script before the next prompt. */
  method RunScript(console: Console, table: UserTable, hash: string -> string, newId: string) returns (outcome: Outcome)
    modifies console, table
    ensures var run := Script(old(console.lines), old(console.chunks), old(table.rows), hash, newId);
            && outcome == run.outcome
            && console.lines == old(console.lines)[run.linesUsed..]
            && console.chunks == old(console.chunks)[run.chunksUsed..]
            && console.echo == old(console.echo) + run.echo
            && table.rows == old(table.rows) + (if outcome.Created? then [outcome.user] else [])
  {
    ghost var lines0 := console.lines;
    var email := console.Prompt();
    if email.None? {
      return Waiting;
    }
    if email.value == [] || '@' !in email.value {
      return InvalidEmail;
    }
    var taken := table.FindByEmail(email.value);
    if taken {
      return AlreadyExists;
    }
    assert lines0 == [email.value] + console.lines;
    outcome := AskNames(console, table, hash, newId, email.value);
  }

  /** The part of `createSuperuser()` from the name prompts on, once the email is accepted. */
  method AskNames(console: Console, table: UserTable, hash: string -> string, newId: string, email: string)
    returns (outcome: Outcome)
    requires email != [] && '@' in email && !HasEmail(table.rows, email)
    modifies console, table
    ensures var run := Script([email] + old(console.lines), old(console.chunks), old(table.rows), hash, newId);
            && outcome == run.outcome
            && console.lines == old(console.lines)[run.linesUsed - 1..]
            && console.chunks == old(console.chunks)[run.chunksUsed..]
            && console.echo == old(console.echo) + run.echo
            && table.rows == old(table.rows) + (if outcome.Created? then [outcome.user] else [])
  {
    ghost var lines0 := [email] + console.lines;
    var firstName := console.Prompt();
    if firstName.None? {
      return Waiting;
    }
    assert lines0[1] == firstName.value;
    if Trim(firstName.value) == [] {
      return MissingFirstName;
    }
    var lastName := console.Prompt();
    if lastName.None? {
      return Waiting;
    }
    assert lines0[2] == lastName.value;
    if Trim(lastName.value) == [] {
      return MissingLastName;
    }
    outcome := ReadPasswordsAndInsert(console, table, hash, newId, email, firstName.value, lastName.value);
  }

  /** The part of `createSuperuser()` from the first password prompt on. */
  method ReadPasswordsAndInsert(console: Console, table: UserTable, hash: string -> string,
                                newId: string, email: string, firstName: string, lastName: string)
    returns (outcome: Outcome)
    modifies console, table
    ensures var run := PasswordStage(old(console.chunks), old(table.rows), hash, newId, email, firstName, lastName);
            && outcome == run.outcome
            && console.lines == old(console.lines)
            && console.chunks == old(console.chunks)[run.chunksUsed..]
            && console.echo == old(console.echo) + run.echo
            && table.rows == old(table.rows) + (if outcome.Created? then [outcome.user] else [])
  {
    ghost var chunks0, echo0, rows0 := console.chunks, console.echo, table.rows;
    ghost var first := ScanFrom("", chunks0);
    ghost var echo1 := PasswordEcho(PasswordQuestion, chunks0);
    ghost var run := PasswordStage(chunks0, rows0, hash, newId, email, firstName, lastName);
    var password := console.PromptPassword(PasswordQuestion);
    assert password == first.read && console.chunks == chunks0[first.used..] && console.echo == echo0 + echo1;
    if !password.Entered? || |password.password| < MinPasswordLength {
      PasswordStageStops(chunks0, rows0, hash, newId, email, firstName, lastName);
      if password.Unfinished? {
        outcome := Waiting;
      } else if password.Aborted? {
        outcome := Cancelled;
      } else {
        outcome := ShortPassword;
      }
      assert run == ScriptRun(outcome, 3, first.used, echo1);
      return;
    }
    var row := NewUser(newId, email, firstName, lastName, hash(password.password));
    ghost var mid := console.chunks;
    ghost var second := ConfirmStage(mid, rows0, password.password, row);
    PasswordStageAfterFirst(chunks0, rows0, hash, newId, email, firstName, lastName);
    assert run == ScriptRun(second.outcome, 3, first.used + second.chunksUsed, echo1 + second.echo);
    outcome := ConfirmAndInsert(console, table, password.password, row);
    assert outcome == second.outcome && console.chunks == mid[second.chunksUsed..];
    assert console.echo == echo0 + echo1 + second.echo;
    AppendAssoc(echo0, echo1, second.echo);
    assert mid == chunks0[first.used..];
    DropDrop(chunks0, first.used, second.chunksUsed);
    assert console.chunks == chunks0[first.used + second.chunksUsed..];
    assert run.chunksUsed == first.used + second.chunksUsed;
  }

  lemma AppendAssoc<T>(a: seq<T>, b: seq<T>, c: seq<T>)
    ensures a + b + c == a + (b + c)
  {
  }

  lemma DropDrop<T>(s: seq<T>, m: nat, n: nat)
    requires m + n <= |s|
    ensures s[m..][n..] == s[m + n..]
  {
  }

  /** The confirmation prompt, the comparison and the insert. */
  method ConfirmAndInsert(console: Console, table: UserTable, password: string, row: UserRow) returns (outcome: Outcome)
    modifies console, table
    ensures var run := ConfirmStage(old(console.chunks), old(table.rows), password, row);
            && outcome == run.outcome
            && console.lines == old(console.lines)
            && console.chunks == old(console.chunks)[run.chunksUsed..]
            && console.echo == old(console.echo) + run.echo
            && table.rows == old(table.rows) + (if outcome.Created? then [outcome.user] else [])
  {
    var confirmation := console.PromptPassword(ConfirmQuestion);
    if confirmation.Unfinished? {
      return Waiting;
    }
    if confirmation.Aborted? {
      return Cancelled;
    }
    if password != confirmation.password {
      return PasswordMismatch;
    }
    var ok := table.Insert(row);
    if !ok {
      return InsertFailed;
    }
    return Created(row);
  }
}
