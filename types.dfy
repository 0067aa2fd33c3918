/** The client's data model (types.ts): the generated artifact, chat
    messages, the three view modes and the application state. */
module Types {

  /** A value that may be absent: TypeScript's `T | null`. */
  datatype Option<T> = None | Some(value: T)

  /** The outcome of an operation that may throw: a value or the error. */
  datatype Result<T, E> = Ok(value: T) | Err(error: E)

  /** Who wrote a message: the user or the generation model. */
  datatype Role = User | Model

  /** The role as the string literal the source stores and prints. */
  function RoleName(r: Role): (name: string)
    ensures name == "user" || name == "model"
    ensures |name| > 0
  {
    match r
    case User => "user"
    case Model => "model"
  }

  /** The two role names are distinct, so a printed role tells the author. */
  lemma RoleNameInjective(a: Role, b: Role)
    ensures RoleName(a) == RoleName(b) <==> a == b
  {
  }

  /** One chat turn; `timestamp` is the millisecond clock reading taken when
      the turn was appended. */
  datatype Message = Message(role: Role, content: string, timestamp: nat)

  /** Which panes of the workspace are shown. */
  datatype ViewMode = Editor | Preview | Split

  /** One generation result: the source text, its declared language and a
      short explanation. */
  datatype GeneratedCode = GeneratedCode(code: string, language: string, explanation: string)

  /** The field of `g` called `name`, as a JSON object holding `g` would
      give it; `None` for any name that is not a field of `GeneratedCode`. */
  function Field(g: GeneratedCode, name: string): Option<string> {
    if name == "code" then Some(g.code)
    else if name == "language" then Some(g.language)
    else if name == "explanation" then Some(g.explanation)
    else None
  }

  /** Two artifacts that agree on every named field are the same artifact:
      `code`, `language` and `explanation` are all there is to one. */
  lemma FieldsDetermineArtifact(g: GeneratedCode, h: GeneratedCode)
    requires forall n :: Field(g, n) == Field(h, n)
    ensures g == h
  {
    assert Field(g, "code") == Field(h, "code");
    assert Field(g, "language") == Field(h, "language");
    assert Field(g, "explanation") == Field(h, "explanation");
  }

  /** The application state: `generated` is absent until the first
      successful generation. */
  datatype AppState = AppState(generated: Option<GeneratedCode>, history: seq<Message>,
                               isLoading: bool, viewMode: ViewMode)
}
