/** The system message call_groq_api composes (main.py:104-122) from the stored persona and the
    document summary. */
module Prompt {
  import opened Text
  import opened Records

  const Base: string := "당신은 사용자의 개인 비서입니다. 모든 답변은 한국어로 해주세요."

  function ToneClause(tone: string): string {
    "말투는 '" + tone + "'으로 유지해주세요."
  }

  function MindClause(mind: string): string {
    "다음과 같은 마인드를 가지고 답변해주세요: " + mind
  }

  function FocusClause(focusAreas: string): string {
    "특히 다음 주제에 중점을 두어 답변해주세요: " + focusAreas
  }

  function DocClause(summary: string): string {
    "제공된 문서 요약을 참고하여 답변해주세요. 문서 요약: " + summary
  }

  /** `persona_settings.get(key)` as a string: the empty settings `{}` have no key, which reads
      as falsy just like "". */
  function ToneOf(p: PersonaSettings): string {
    if p.Persona? then p.tone else ""
  }

  function MindOf(p: PersonaSettings): string {
    if p.Persona? then p.mind else ""
  }

  function FocusOf(p: PersonaSettings): string {
    if p.Persona? then p.focusAreas else ""
  }

  /** `persona_settings.get("temperature", 0.5)`. */
  function Temperature(p: PersonaSettings): real {
    if p.Persona? then p.temperature else 0.5
  }

  /** `[clause]` when the value it quotes is truthy (non-empty), `[]` otherwise. */
  function OptionalClause(value: string, clause: string): seq<string> {
    if value != "" then [clause] else []
  }

  /** A base part followed by four optional clauses, each guarded by the value it quotes. */
  function Assemble(base: string, v1: string, c1: string, v2: string, c2: string,
                    v3: string, c3: string, v4: string, c4: string): seq<string>
  {
    [base] + Clauses(v1, c1, v2, c2, v3, c3, v4, c4)
  }

  /** The four optional clauses in order. */
  function Clauses(v1: string, c1: string, v2: string, c2: string,
                   v3: string, c3: string, v4: string, c4: string): seq<string>
  {
    OptionalClause(v1, c1) + OptionalClause(v2, c2) + OptionalClause(v3, c3) + OptionalClause(v4, c4)
  }

  /** system_msg_parts after main.py:107-119. */
  function PromptParts(p: PersonaSettings, summary: string): seq<string> {
    Assemble(Base, ToneOf(p), ToneClause(ToneOf(p)), MindOf(p), MindClause(MindOf(p)),
             FocusOf(p), FocusClause(FocusOf(p)), summary, DocClause(summary))
  }

  /** `" ".join(system_msg_parts)`. */
  function SystemMessage(p: PersonaSettings, summary: string): string {
    Join(" ", PromptParts(p, summary))
  }

  /** " " + clause when the value is non-empty: what a present clause adds to the message. */
  function SpacedClause(value: string, clause: string): string {
    if value != "" then " " + clause else ""
  }

  lemma SeparatedOptional(value: string, clause: string)
    ensures SeparatedTail(" ", OptionalClause(value, clause)) == SpacedClause(value, clause)
  {
    if value != "" {
      assert [clause][1..] == [];
    }
  }

  /** The separated tail of four optional clauses, one clause at a time. */
  lemma SeparatedFour(v1: string, c1: string, v2: string, c2: string,
                      v3: string, c3: string, v4: string, c4: string)
    ensures SeparatedTail(" ", Clauses(v1, c1, v2, c2, v3, c3, v4, c4))
         == SpacedClause(v1, c1) + SpacedClause(v2, c2) + SpacedClause(v3, c3) + SpacedClause(v4, c4)
  {
    var t, m, f, d := OptionalClause(v1, c1), OptionalClause(v2, c2), OptionalClause(v3, c3), OptionalClause(v4, c4);
    SeparatedTailAppend(" ", t + m + f, d);
    SeparatedTailAppend(" ", t + m, f);
    SeparatedTailAppend(" ", t, m);
    SeparatedOptional(v1, c1);
    SeparatedOptional(v2, c2);
    SeparatedOptional(v3, c3);
    SeparatedOptional(v4, c4);
  }

  /** Joining a head part with the rest. */
  lemma JoinHead(base: string, rest: seq<string>)
    ensures Join(" ", [base] + rest) == base + SeparatedTail(" ", rest)
  {
    var parts := [base] + rest;
    assert parts[0] == base && parts[1..] == rest;
    JoinIsHeadThenSeparated(" ", parts);
  }

  /** Joining the assembled parts with single spaces. */
  lemma JoinAssembled(base: string, v1: string, c1: string, v2: string, c2: string,
                      v3: string, c3: string, v4: string, c4: string)
    ensures Join(" ", Assemble(base, v1, c1, v2, c2, v3, c3, v4, c4))
         == base + (SpacedClause(v1, c1) + SpacedClause(v2, c2) + SpacedClause(v3, c3) + SpacedClause(v4, c4))
  {
    JoinHead(base, Clauses(v1, c1, v2, c2, v3, c3, v4, c4));
    SeparatedFour(v1, c1, v2, c2, v3, c3, v4, c4);
  }

  /** A clause distinct from the base and from the other clauses is among the parts exactly
      when its value is non-empty. */
  lemma AssembledMembership(base: string, v1: string, c1: string, v2: string, c2: string,
                            v3: string, c3: string, v4: string, c4: string)
    requires c1 != base && c2 != base && c3 != base && c4 != base
    requires c1 != c2 && c1 != c3 && c1 != c4 && c2 != c3 && c2 != c4 && c3 != c4
    ensures var parts := Assemble(base, v1, c1, v2, c2, v3, c3, v4, c4);
      && (c1 in parts <==> v1 != "")
      && (c2 in parts <==> v2 != "")
      && (c3 in parts <==> v3 != "")
      && (c4 in parts <==> v4 != "")
  {
    var t, m, f, d := OptionalClause(v1, c1), OptionalClause(v2, c2), OptionalClause(v3, c3), OptionalClause(v4, c4);
    var parts := Assemble(base, v1, c1, v2, c2, v3, c3, v4, c4);
    assert parts == [base] + (t + m + f + d);
    assert forall x :: x in parts <==> x == base || x in t || x in m || x in f || x in d;
  }

  /** The message spelled out: the base sentence, then each present clause behind one space, in
      the order tone, mind, focus, document. */
  lemma SystemMessageSpelledOut(p: PersonaSettings, summary: string)
    ensures SystemMessage(p, summary)
         == Base
            + (SpacedClause(ToneOf(p), ToneClause(ToneOf(p)))
            + SpacedClause(MindOf(p), MindClause(MindOf(p)))
            + SpacedClause(FocusOf(p), FocusClause(FocusOf(p)))
            + SpacedClause(summary, DocClause(summary)))
  {
    JoinAssembled(Base, ToneOf(p), ToneClause(ToneOf(p)), MindOf(p), MindClause(MindOf(p)),
                  FocusOf(p), FocusClause(FocusOf(p)), summary, DocClause(summary));
  }

  /** Whatever the persona and the summary, the message opens with the base sentence. */
  lemma SystemMessageStartsWithBase(p: PersonaSettings, summary: string)
    ensures StartsWith(SystemMessage(p, summary), Base)
  {
    SystemMessageSpelledOut(p, summary);
    var rest := SpacedClause(ToneOf(p), ToneClause(ToneOf(p)))
              + SpacedClause(MindOf(p), MindClause(MindOf(p)))
              + SpacedClause(FocusOf(p), FocusClause(FocusOf(p)))
              + SpacedClause(summary, DocClause(summary));
    PrefixOfConcat(Base, rest);
  }

  lemma PrefixOfConcat(a: string, b: string)
    ensures StartsWith(a + b, a)
  {
    assert (a + b)[..|a|] == a;
  }

  /** With no persona settings and no summary the message is the base sentence alone. */
  lemma SystemMessageBaseOnly()
    ensures SystemMessage(NoPersona, "") == Base
  {
    SystemMessageSpelledOut(NoPersona, "");
  }

  /** A persona with only a tone and no document: the base sentence and the tone clause. */
  lemma ToneOnlyExample(temperature: real)
    ensures SystemMessage(Persona("concise", "", "", temperature), "") == Base + " " + ToneClause("concise")
  {
    SystemMessageSpelledOut(Persona("concise", "", "", temperature), "");
  }

  /** The clauses begin differently, so none can stand for another or for the base sentence. */
  lemma ClausesDistinct(a: string, b: string, c: string, d: string)
    ensures ToneClause(a) != Base && MindClause(b) != Base && FocusClause(c) != Base && DocClause(d) != Base
    ensures ToneClause(a) != MindClause(b) && ToneClause(a) != FocusClause(c) && ToneClause(a) != DocClause(d)
    ensures MindClause(b) != FocusClause(c) && MindClause(b) != DocClause(d)
    ensures FocusClause(c) != DocClause(d)
  {
    assert Base[0] == '당' && ToneClause(a)[0] == '말' && MindClause(b)[0] == '다';
    assert FocusClause(c)[0] == '특' && DocClause(d)[0] == '제';
  }

  /** Each clause is among the parts exactly when the value it quotes is non-empty. */
  lemma ClausePresence(p: PersonaSettings, summary: string)
    ensures ToneClause(ToneOf(p)) in PromptParts(p, summary) <==> ToneOf(p) != ""
    ensures MindClause(MindOf(p)) in PromptParts(p, summary) <==> MindOf(p) != ""
    ensures FocusClause(FocusOf(p)) in PromptParts(p, summary) <==> FocusOf(p) != ""
    ensures DocClause(summary) in PromptParts(p, summary) <==> summary != ""
  {
    ClausesDistinct(ToneOf(p), MindOf(p), FocusOf(p), summary);
    AssembledMembership(Base, ToneOf(p), ToneClause(ToneOf(p)), MindOf(p), MindClause(MindOf(p)),
                        FocusOf(p), FocusClause(FocusOf(p)), summary, DocClause(summary));
  }
}
