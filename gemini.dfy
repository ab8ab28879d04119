/** The explanation service's prompt construction: the audience level, the
    instruction each level selects, and the prompt that frames the user's
    code.  The call to the model that consumes the prompt is not part of
    this model. */
module Gemini {
  import opened Wrappers

  /** The audience a user explains code to. */
  datatype Level = Junior | Intermediate | Senior {

    /** The enum member's value, which is also its key in the prompt table. */
    function Value(): string {
      match this
      case Junior => "junior"
      case Intermediate => "intermediate"
      case Senior => "senior"
    }
  }

  /** `Level(value)`: the member whose value is `value`, if any. */
  function LevelOf(value: string): (level: Option<Level>)
    ensures level.Some? ==> level.value.Value() == value
    ensures level.None? ==> forall l: Level :: l.Value() != value
  {
    if value == "junior" then Some(Junior)
    else if value == "intermediate" then Some(Intermediate)
    else if value == "senior" then Some(Senior)
    else None
  }

  /** Every level is found again from its value. */
  lemma LevelOfValue(level: Level)
    ensures LevelOf(level.Value()) == Some(level)
  {
  }

  /** The `level` field of an explain request: absent means intermediate;
      a value that names no level is rejected (`None`). */
  function RequestLevel(field: Option<string>): (level: Option<Level>)
    ensures field.None? ==> level == Some(Intermediate)
    ensures field.Some? ==> (level.Some? <==> exists l: Level :: l.Value() == field.value)
    ensures level.Some? && field.Some? ==> level.value.Value() == field.value
  {
    match field
    case None => Some(Intermediate)
    case Some(v) => LevelOf(v)
  }

  const JUNIOR_INSTRUCTION: string :=
    "You are a helpful mentor teaching a "
    + "complete beginner. Explain the following "
    + "code using simple analogies (like cooking, "
    + "traffic, or lego). Avoid technical jargon "
    + "where possible. Explain *what* the code "
    + "does."

  const INTERMEDIATE_INSTRUCTION: string :=
    "You are a senior developer doing a code "
    + "review for a mid-level colleague. Explain "
    + "the logic flow, standard libraries used, "
    + "and any Pythonic idioms. Focus on *how* the "
    + "code achieves its goal."

  const SENIOR_INSTRUCTION: string :=
    "You are a principal engineer. Analyze this "
    + "code for performance complexity (Big O), "
    + "security vulnerabilities, edge cases, and "
    + "architectural patterns. Be concise and "
    + "technical."

  /** The prompt table, keyed by level value. */
  const PROMPTS: map<string, string> :=
    map["junior" := JUNIOR_INSTRUCTION,
        "intermediate" := INTERMEDIATE_INSTRUCTION,
        "senior" := SENIOR_INSTRUCTION]

  /** `prompts.get(key, prompts["intermediate"])`. */
  function Lookup(key: string): (instruction: string)
    ensures key in PROMPTS ==> instruction == PROMPTS[key]
    ensures key !in PROMPTS ==> instruction == INTERMEDIATE_INSTRUCTION
  {
    if key in PROMPTS then PROMPTS[key] else PROMPTS[Intermediate.Value()]
  }

  /** The instruction a level selects: always the table's own entry for
      the level, never the fallback. */
  function SystemInstruction(level: Level): (instruction: string)
    ensures level.Value() in PROMPTS && instruction == PROMPTS[level.Value()]
  {
    Lookup(level.Value())
  }

  /** Each level selects its own instruction, and the table's fallback is
      never what a level gets. */
  lemma InstructionPerLevel()
    ensures SystemInstruction(Junior) == JUNIOR_INSTRUCTION
    ensures SystemInstruction(Intermediate) == INTERMEDIATE_INSTRUCTION
    ensures SystemInstruction(Senior) == SENIOR_INSTRUCTION
    ensures forall l: Level :: l.Value() in PROMPTS
  {
  }

  /** The three instructions are pairwise distinct: they already differ at
      the eleventh character, after the shared "You are a ". */
  lemma InstructionsDistinct(a: Level, b: Level)
    requires a != b
    ensures SystemInstruction(a) != SystemInstruction(b)
    ensures SystemInstruction(a)[10] != SystemInstruction(b)[10]
  {
    InstructionCharacter(a);
    InstructionCharacter(b);
  }

  /** The character at index 10 names the level's instruction. */
  lemma InstructionCharacter(level: Level)
    ensures |SystemInstruction(level)| > 10
    ensures SystemInstruction(level)[10] == match level
      case Junior => 'h'
      case Intermediate => 's'
      case Senior => 'p'
  {
    InstructionPerLevel();
    match level
    case Junior =>
    case Intermediate =>
    case Senior =>
  }

  /** What comes between the instruction and the code. */
  const CODE_HEADER: string := "\n\nCode Snippet:\n```\n"

  /** What follows the code. */
  const CODE_FOOTER: string := "\n```"

  /** The prompt sent to the model: the level's instruction, then the code
      in a fenced block. */
  function FullPrompt(code: string, level: Level): (prompt: string)
    ensures |prompt| == |SystemInstruction(level)| + |CODE_HEADER| + |code| + |CODE_FOOTER|
    ensures prompt[..|SystemInstruction(level)|] == SystemInstruction(level)
    ensures prompt[|prompt| - |CODE_FOOTER|..] == "\n```"
  {
    SystemInstruction(level) + CODE_HEADER + code + CODE_FOOTER
  }

  /** Where the code starts inside the prompt. */
  function CodeOffset(level: Level): nat {
    |SystemInstruction(level)| + |CODE_HEADER|
  }

  /** The code appears verbatim and contiguously inside the prompt, right
      after the header. */
  lemma CodeInPrompt(code: string, level: Level)
    ensures var prompt := FullPrompt(code, level);
            CodeOffset(level) + |code| <= |prompt|
            && prompt[CodeOffset(level)..CodeOffset(level) + |code|] == code
            && prompt[|SystemInstruction(level)|..CodeOffset(level)] == CODE_HEADER
  {
    var instruction := SystemInstruction(level);
    var prompt := FullPrompt(code, level);
    assert prompt == (instruction + CODE_HEADER) + code + CODE_FOOTER;
    assert prompt[CodeOffset(level)..CodeOffset(level) + |code|] == code;
    assert prompt[|instruction|..CodeOffset(level)] == CODE_HEADER;
  }

  /** The prompt determines both inputs: the level from the instruction's
      eleventh character, the code from what lies between header and footer. */
  lemma PromptDeterminesInputs(code1: string, level1: Level, code2: string, level2: Level)
    requires FullPrompt(code1, level1) == FullPrompt(code2, level2)
    ensures level1 == level2 && code1 == code2
  {
    var prompt := FullPrompt(code1, level1);
    InstructionCharacter(level1);
    InstructionCharacter(level2);
    assert prompt[10] == SystemInstruction(level1)[10] == SystemInstruction(level2)[10];
    CodeInPrompt(code1, level1);
    CodeInPrompt(code2, level2);
  }
}
