/** Role-tagged chat messages, the message list sent to the provider, and the
    response-style instruction that goes into the system prompt. */
module Conversation {

  datatype Role = System | User | Assistant

  datatype Message = Message(role: Role, content: string)

  /** The conversation the caller keeps holds only user and assistant turns
      (app.py:646, 676). */
  predicate IsChatHistory(conversation: seq<Message>)
  {
    forall i :: 0 <= i < |conversation| ==> conversation[i].role != System
  }

  /** The message list of one request (app.py:452-456): one system message
      carrying the instructions, then the caller's conversation. */
  function ApiMessages(systemPrompt: string, conversation: seq<Message>): (r: seq<Message>)
    ensures |r| == |conversation| + 1
    ensures r[0].role == System && r[0].content == systemPrompt
    ensures forall i :: 0 <= i < |conversation| ==> r[i + 1] == conversation[i]
  {
    [Message(System, systemPrompt)] + conversation
  }

  /** The caller's conversation, recovered from a request's message list. */
  function History(request: seq<Message>): seq<Message>
  {
    if request == [] then [] else request[1..]
  }

  /** Assembling a request neither drops, reorders nor alters the caller's
      turns, and on a chat history the only system message is the first. */
  lemma ApiMessagesKeepConversation(systemPrompt: string, conversation: seq<Message>)
    ensures History(ApiMessages(systemPrompt, conversation)) == conversation
    ensures IsChatHistory(conversation) ==>
      forall i :: 0 <= i < |conversation| + 1 ==>
        (ApiMessages(systemPrompt, conversation)[i].role == System <==> i == 0)
  {
    assert ApiMessages(systemPrompt, conversation)[1..] == conversation;
  }

  /** The `STYLES` table of app.py:105-111. */
  const Styles: map<string, string> := map[
    "Balanced" := "Clear, balanced, professional. Use markdown structure.",
    "Concise" := "Be brief. Bullet points preferred. No fluff.",
    "Detailed" := "Thorough with examples, context, and full explanations.",
    "Creative" := "Vivid, imaginative, and engaging language.",
    "Technical" := "Precise and technical. Include code examples where relevant."
  ]

  /** `STYLES.get(style, STYLES['Balanced'])` (app.py:115): a known style
      gets its own instruction, an unknown one reads as "Balanced", and since
      the five instructions differ that is the only way another name obtains
      the balanced instruction. */
  function StyleText(style: string): (r: string)
    ensures r in Styles.Values
    ensures style in Styles ==> r == Styles[style]
    ensures r == Styles["Balanced"] <==> style == "Balanced" || style !in Styles
  {
    if style in Styles then Styles[style] else Styles["Balanced"]
  }

  /** The instruction identifies the style: no two known styles share an
      instruction, so a known style can be read back from its text. */
  lemma StyleTextIdentifiesStyle(a: string, b: string)
    requires a in Styles && b in Styles
    ensures StyleText(a) == StyleText(b) <==> a == b
  {
  }
}
