/** Composing the commit message: the commit types offered, the subject validator run on
    every answer to the subject prompt, and the header `<type>: <subject>`. */
module Message {
  import opened Text
  import opened Wrappers

  /** The choices of the commit-type list prompt, in the order they are shown. */
  const CommitTypes: seq<string> := ["feat", "fix", "docs", "chore", "style", "refactor", "test"]

  /** The type allow-list of the linter configuration (its `type-enum` rule). */
  const LintTypeEnum: seq<string> := ["feat", "fix", "docs", "chore", "style", "refactor", "test", "revert"]

  /** Every type the prompt offers passes the linter's type rule, and none contains the
      colon that ends the type in a header. */
  lemma CommitTypesAllowed()
    ensures forall t :: t in CommitTypes ==> t in LintTypeEnum && ':' !in t
  {
  }

  /** The answer of the `validate` callback: `true`, or the message shown to the user. */
  datatype SubjectCheck = Accept | Reject(reason: string)

  const EmptyReason: string := "Message cannot be empty!"
  const TooShortReason: string := "Message too short!"

  /** The `validate` callback of the subject prompt, on the raw answer. It rejects an
      answer that is only whitespace, then a trimmed answer of fewer than 3 UTF-16 code
      units, and accepts everything else. */
  function ValidateSubject(input: string): (r: SubjectCheck)
    ensures r == Reject(EmptyReason) <==> AllWhitespace(input)
    ensures r == Reject(TooShortReason) <==> !AllWhitespace(input) && Utf16Length(Trim(input)) < 3
    ensures r == Accept <==> Utf16Length(Trim(input)) >= 3
  {
    TrimEmptyIff(input);
    var message := Trim(input);
    if message == [] then Reject(EmptyReason)
    else if Utf16Length(message) < 3 then Reject(TooShortReason)
    else Accept
  }

  /** The commit message: the type, a colon, a space and the trimmed subject. The part
      after the type prefix is no longer than the answer, and neither starts nor ends
      with whitespace. */
  function Assemble(commitType: string, subject: string): (message: string)
    ensures |commitType| + 2 <= |message| <= |commitType| + 2 + |subject|
    ensures message[..|commitType| + 2] == commitType + ": "
    ensures var rest := message[|commitType| + 2..];
            rest == [] || (!IsWhitespace(rest[0]) && !IsWhitespace(rest[|rest| - 1]))
  {
    var rest := Trim(subject);
    var message := commitType + ": " + rest;
    assert message[|commitType| + 2..] == rest;
    message
  }

  /** Reads a header back: the text before the first ": " is the type and the text after
      it the subject; `None` when there is no ": ". */
  function ParseHeader(header: string): Option<(string, string)>
  {
    if |header| < 2 then None
    else if header[0] == ':' && header[1] == ' ' then Some(([], header[2..]))
    else match ParseHeader(header[1..])
      case None => None
      case Some((t, s)) => Some(([header[0]] + t, s))
  }

  /** A header made of a colon-free type, ": " and any rest parses into that type and
      that rest. */
  lemma {:induction false} ParseTypePrefix(commitType: string, rest: string)
    requires ':' !in commitType
    ensures ParseHeader(commitType + ": " + rest) == Some((commitType, rest))
  {
    var header := commitType + ": " + rest;
    if commitType == [] {
      assert header == ": " + rest;
      assert header[2..] == rest;
    } else {
      assert header[1..] == commitType[1..] + ": " + rest;
      ParseTypePrefix(commitType[1..], rest);
      assert [commitType[0]] + commitType[1..] == commitType;
    }
  }

  /** Parsing an assembled message gives back the type and the trimmed subject, for any
      type without a colon. */
  lemma ParseAssembled(commitType: string, subject: string)
    requires ':' !in commitType
    ensures ParseHeader(Assemble(commitType, subject)) == Some((commitType, Trim(subject)))
  {
    ParseTypePrefix(commitType, Trim(subject));
  }

  /** What follows the type prefix of a message built from an accepted subject is
      already trimmed and at least 3 code units long: the header can be taken apart again
      into a type from the list and a subject the validator would accept as it is. */
  lemma AcceptedHeaderRoundTrip(commitType: string, subject: string)
    requires commitType in CommitTypes
    requires ValidateSubject(subject) == Accept
    ensures var header := Assemble(commitType, subject);
            && header[..|commitType| + 2] == commitType + ": "
            && ParseHeader(header) == Some((commitType, header[|commitType| + 2..]))
            && Trim(header[|commitType| + 2..]) == header[|commitType| + 2..]
            && Utf16Length(header[|commitType| + 2..]) >= 3
            && ValidateSubject(header[|commitType| + 2..]) == Accept
  {
    CommitTypesAllowed();
    var header := Assemble(commitType, subject);
    var part := Trim(subject);
    assert header == (commitType + ": ") + part;
    assert header[..|commitType| + 2] == commitType + ": ";
    assert header[|commitType| + 2..] == part;
    ParseAssembled(commitType, subject);
    TrimIdempotent(subject);
    assert ValidateSubject(part) == Accept;
  }

  // The validator's answers on the examples: "" and "  " are refused as empty, "ab" as
  // too short, and "abc" is taken. One lemma each keeps every proof small.

  lemma RejectsEmptySubject()
    ensures ValidateSubject("") == Reject(EmptyReason)
  {
  }

  lemma RejectsBlankSubject()
    ensures ValidateSubject("  ") == Reject(EmptyReason)
  {
    assert AllWhitespace("  ");
  }

  lemma RejectsShortSubject()
    ensures ValidateSubject("ab") == Reject(TooShortReason)
  {
    assert !AllWhitespace("ab") by { assert !IsWhitespace("ab"[0]); }
    assert Trim("ab") == "ab" by { TrimStartNoOp("ab"); TrimEndNoOp("ab"); }
  }

  lemma AcceptsThreeLetterSubject()
    ensures ValidateSubject("abc") == Accept
  {
    assert Trim("abc") == "abc" by { TrimStartNoOp("abc"); TrimEndNoOp("abc"); }
  }

  lemma TrimExampleStart()
    ensures TrimStart("  add login  ") == "add login  "
  {
    TrimStartNoOp("add login  ");
  }

  lemma TrimExampleEnd()
    ensures TrimEnd("add login  ") == "add login"
  {
    TrimEndNoOp("add login");
  }

  /** The message for type `feat` and subject "  add login  " is "feat: add login". */
  lemma AssembleExample()
    ensures Assemble("feat", "  add login  ") == "feat: add login"
  {
    TrimExampleStart();
    TrimExampleEnd();
  }
}
