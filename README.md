# Trilogue conversation core, in Dafny

Trilogue is a three-party chat: one human and two AI models take turns in a
single transcript. This project models the layer of `Trilogue.py` that shapes
that conversation, and proves properties of the model. It has four parts.

- **Participant identity** (`characters.dfy`, module `Characters`).
  - The closed set of characters, with their vendor model identifiers, their
    labels, and the AI characters offered for a seat.
  - The perspective rule. It flattens a three-party chat into the two-role
    `user`/`assistant` schema that vendors accept.
  - A seat's `Player #i (name)` label, with Python's `str(int)` written out.
- **Label stripping** (`messages.dfy`, module `Messages`). A turn is a
  `class Message`: its content is reassigned when a stream is drained.
  - A model often echoes its own `**Player #i (name)**` label at the start of
    a reply. The model covers removing that echo from one string
    (`CleanContent`).
  - It covers removing it from a finite stream of chunks: the loop with its
    label cursor and stop flag (`Message.CleanIterable`), specified by the
    function `CleanStream`.
  - It covers draining a turn and freezing its content to the joined text
    (`Message.EnsureCleanContentIterable`).
- **Request builders** (`backends.dfy`, module `Backends`).
  - The OpenAI and Anthropic `get_message_history` loops are methods proved
    against the specification functions `TextEntries` ("one entry per
    message, up to the first stream") and `WithSynthetic` ("a filler
    `assistant` turn between two touching `user` entries").
  - The Cohere role and message conversion, and how `get_next_message` splits
    the history into chat history and last message (`CohereBackend.ChatRequest`).
- **Dispatch** (`CreateBackend`). Maps a character to a backend kind. The human
  has no backend.

Python exceptions are values of `Results.Result`. The `Error` kinds are
`TypeError`, `NotImplementedError`, `IndexError` and `KeyError`. A property
that Python reads, such as `llm_content` on a message, is a function of the
object it reads.

Where an informal reading of the program would differ from its code, the
model follows the code:
- Nothing after the label is trimmed: no punctuation and no whitespace.
- A user character viewing a user turn gets `user`, because the XOR rule is
  false XOR true.
- Both builders stop at the first streamed turn. They do not skip it.
- `model_slug` for the human runs `raise NotImplemented`. Python 3 turns this
  into a `TypeError`, not a `NotImplementedError`.

The stream cleaner has one behaviour worth knowing. If the reply begins with
only part of the label, what survives depends on how the reply was chunked.
`Messages.PartialLabelIsSplitSensitive` gives an instance. When the whole
text starts with the full label, the chunking does not matter
(`Messages.CleanStreamSplitInvariant`).

## Model

| member | source | states |
|---|---|---|
| Characters.Character.Bots | Trilogue.py:20-23 | The seat list names each AI character once, and it holds exactly the characters that are not the human. |
| Characters.Character.ModelSlug | Trilogue.py:29-43 | A model identifier exists exactly for the members of the seat list. The human gets a TypeError. |
| Characters.Character.DisplayName | Trilogue.py:45-59 | A label exists exactly for the members of the seat list. The human gets NotImplementedError. |
| Characters.BotMappingsInjective | Trilogue.py:29-59 | Two different AI characters never share a model identifier or a label. |
| Characters.Character.RoleFromOwnPerspective | Trilogue.py:61-64 | The role is `user` or `assistant`. It is `assistant` exactly when a bot views its own character's turn, or when the human views a bot's turn. It depends only on the two characters. |
| Characters.IntToString | Trilogue.py:75 | The decimal text of the seat index is non-empty and starts with `-` exactly for negative indices. |
| Characters.NatToStringRoundTrip | Trilogue.py:75 | The digits written for a non-negative index are its decimal expansion: an independent most-significant-first reader gives the number back. |
| Characters.IntToStringRoundTrip | Trilogue.py:75 | `str(index)` is the decimal text of the index, with a leading `-` for negatives: reading it back with an optional sign gives the index. |
| Characters.IntToStringInjective | Trilogue.py:75 | Different indices print differently (a consequence of the round trip). |
| Characters.DisplayNameInjective | Trilogue.py:73-75 | The `Player #i (name)` label determines the seat index and the name. |
| Messages.RemovePrefix | Trilogue.py:107 | `str.removeprefix`: when the prefix is present, the input is the prefix followed by the result; otherwise the input comes back unchanged. |
| Messages.CleanContent | Trilogue.py:103-107 | The result is the content unchanged, or the content minus exactly `prefix[:len(content)]`. It is always a suffix of the content, and the part cut off is a prefix of the label. |
| Messages.CleanStreamStripsLabel | Trilogue.py:86-107 | If the joined chunks start with the label, the joined output is the joined input without the label, for every chunking (empty and one-character chunks included). |
| Messages.CleanStreamSplitInvariant | Trilogue.py:86-107 | Two chunkings of the same labelled text clean to the same text. |
| Messages.CleanStreamRemovesOnlyLabel | Trilogue.py:86-107 | The joined output is a suffix of the joined input, and the part removed is a prefix of the label. |
| Messages.CleanStreamPassesThrough | Trilogue.py:91-99 | The first yielded chunk is non-empty, and every later chunk is an input chunk passed through unchanged. |
| Messages.CleanStreamSkipsOnlyLabel | Trilogue.py:91-99 | The chunks swallowed before the first yielded one spell a prefix of the label, and so does the whole input when nothing is yielded. |
| Messages.PartialLabelIsSplitSensitive | Trilogue.py:86-107 | A reply that starts with only part of the label cleans differently in one chunk (`**Hi` stays) than in two (`**` then `Hi` gives `Hi`). |
| Messages.Message.LlmContent | Trilogue.py:124-126 | A string turn gives its model-facing text, which starts with the turn's label. A stream turn gives a TypeError (`str + generator`). |
| Messages.Message.LlmContentCleansToText | Trilogue.py:103-126 | Cleaning a turn's model-facing text against its own label leaves the newline and the original text. |
| Messages.Message.CleanIterable | Trilogue.py:86-101 | The loop yields exactly `CleanStream` of the chunks. When the joined chunks start with the label, it yields that text without the label. |
| Messages.Message.EnsureCleanContentIterable | Trilogue.py:109-118 | A string turn yields one chunk, the cleaned string, and is left unchanged. A stream turn yields its cleaned chunks and then holds their join as a string: the stream's text without the label whenever it started with the label. |
| Backends.TextEntriesIsStringPrefix | Trilogue.py:149-155 | The per-message entries cover the longest all-string prefix of the transcript, one per message and in order, with the role and text of each. |
| Backends.SyntheticNotInTextEntries | Trilogue.py:121-126 | No per-message entry equals the filler turn, since each starts with `*` from its label. |
| Backends.OpenAIBackend.GetMessageHistory | Trilogue.py:143-156 | The request is the system prompt, then the fixed no-names instruction, both as `system`, then the per-message entries up to the first streamed turn. |
| Backends.AnthropicBackend.GetMessageHistory | Trilogue.py:182-196 | The request is the per-message entries, with a filler `assistant` turn wherever two `user` entries would touch. |
| Backends.WithSyntheticNoAdjacentUsers | Trilogue.py:189-195 | No two adjacent entries of the Anthropic request are both `user`. |
| Backends.WithoutSyntheticUndoesInsertion | Trilogue.py:182-196 | Dropping the filler turns gives back the per-message entries. |
| Backends.SyntheticOnlyBetweenUsers | Trilogue.py:189-195 | Every filler turn has a `user` entry on each side. So it is never first, and never last. |
| Backends.WithSyntheticLength | Trilogue.py:189-195 | Exactly one filler turn is inserted per adjacent `user`/`user` pair. |
| Backends.WithSyntheticKeepsAlternation | Trilogue.py:189-195 | When no two `user` entries touch, the Anthropic request is the per-message entries themselves. |
| Backends.AnthropicHistoryLaws | Trilogue.py:182-196 | For every transcript, the Anthropic request has no touching `user` entries and only fillers between `user` entries. Minus its fillers, it equals the OpenAI request minus that request's two system entries. |
| Backends.CollisionExample | Trilogue.py:189-195 | `[user, user, assistant]` becomes `[user, filler, user, assistant]`. |
| Backends.SameModelSeatsShareAssistantRole | Trilogue.py:182-196 | When seats 2 and 3 both run Claude 3 Opus, Claude sees both seats' turns as touching `assistant` entries, and nothing separates them. |
| Backends.CohereBackend.ConvertRole | Trilogue.py:219-220 | `user` maps to USER, `assistant` to CHATBOT and `system` to SYSTEM. Any other role is a KeyError. |
| Backends.CohereBackend.ConvertMessage | Trilogue.py:222-226 | A string turn becomes its model-facing text under CHATBOT exactly when the perspective rule says `assistant`, and under USER exactly when it says `user`. A stream turn is a TypeError. |
| Backends.CohereBackend.Encode | Trilogue.py:230 | The list comprehension succeeds exactly when every turn is a string, keeps the length, and converts each turn at its own index. Otherwise it is a TypeError. |
| Backends.CohereBackend.ChatRequest | Trilogue.py:228-236 | A request is built exactly for a bot seat with a non-empty all-string transcript. A streamed turn and a human seat are TypeErrors. An empty transcript is an IndexError. |
| Backends.ChatRequestContents | Trilogue.py:229-235 | A built request targets the seat's model. Its chat history is the SYSTEM prompt followed by all turns but the last, in order, so its length is the transcript's. Its message is the last turn's model-facing text. |
| Backends.CreateBackend | Trilogue.py:240-249 | GPT-4 and GPT-3.5 go to OpenAI, Claude 3 Opus to Anthropic, and both Command models to Cohere, each keeping its seat and system prompt. The human is a NotImplementedError. |
| Backends.CreateBackendMatchesVendor | Trilogue.py:240-249 | Every backend built has a model identifier, and the identifier names that backend's vendor family (`gpt-`, `claude-`, `command-`). |

## Left out

- Streamlit UI and session state: `Message.render`, the seat pickers, the sidebar and the top-level round driver (Trilogue.py:128-134, 252-301). They are display glue with no logic to prove.
- Vendor calls and streaming transport: `_get_content_stream` for OpenAI and Anthropic, `client.chat` for Cohere, and the client constructors. These are network calls. The model goes as far as the arguments handed to the call (the entry lists and `CohereChat`, whose `{'id': 'web-search'}` connector is a `Connector` record); the reply is not modelled.
- The `get_next_message` wrappers of the OpenAI and Anthropic backends. They only wrap a vendor stream in a new `Message`.
- `temperature`, `top_p` and `max_tokens`. They are floating-point slider values and constants passed straight to the vendor.
- The Anthropic backend's system prompt. It is stored but never sent, so the model keeps the field and uses it nowhere.
- `get_system_prompt`. It formats text from the settings UI.
- Generator laziness: streamed content is a finite `seq<string>`, and draining is one method call that returns every yielded chunk. A consumer that stops early is not modelled.
- Roles are kept as the strings the source uses (`user`, `assistant`, `system`, and Cohere's three).
- Messages.Message.LlmContent: its contract says the text starts with the label, not the whole concatenation. Together with LlmContentCleansToText it determines the rest.
- Characters.Character.Npc (Trilogue.py:25-27), Characters.Player.DisplayName and Messages.Message.MessagePrefix carry no contract of their own. What `npc` promises is stated by Bots (a character is a bot exactly when it is in the seat list) and by RoleFromOwnPerspective. What the two labels promise is stated by DisplayNameInjective and by the label facts in LlmContent.
