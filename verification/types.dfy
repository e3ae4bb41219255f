/** The shared records of the application (types.ts, lines 1-27). */
module Types {
  import opened Base

  /** Who wrote a chat message. */
  datatype Role = User | Model

  /** An attached file: its MIME type and its base64 payload. The payload is
      the data URL's text between its first comma and the next comma (or the
      end), and is absent when the URL holds no comma at all. */
  datatype Attachment = Attachment(mimeType: string, data: Option<string>)

  /** One entry of the conversation; `timestamp` comes from the clock. */
  datatype ChatMessage = ChatMessage(role: Role, content: string, timestamp: int,
                                     attachments: Option<seq<Attachment>>)

  /** What the generation service returns on success. */
  datatype GeneratedCode = GeneratedCode(code: string, explanation: string)

  /** Which panes the workspace shows. */
  datatype ViewMode = Code | Preview | Split

  /** The phase of a generation in progress. */
  datatype Step = Thinking | Coding | Rendering

  datatype GenerationStatus = GenerationStatus(isGenerating: bool, step: Option<Step>)

  /** The status outside any generation. */
  const Idle := GenerationStatus(false, None)
}
