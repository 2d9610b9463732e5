/**
 * The editor's state store (src/app/editor/store.ts): one record of chat,
 * editor, validation and payment fields, replaced field by field by its
 * actions. Message ids and timestamps, which the store draws from
 * `crypto.randomUUID` and `Date.now`, are arguments here.
 */
module EditorStore {
  import opened Options
  import SkillDocument
  import opened ZipCreator

  datatype PaymentState = Idle | Connecting | Signing | Verifying | Confirmed | Error

  datatype ActiveFile = Skill | MetadataFile

  datatype Role = User | Assistant

  datatype ChatMessage = ChatMessage(id: string, role: Role, content: string, timestamp: int)

  /** The validation the store starts with: valid, with nothing reported. */
  const InitialValidation: SkillDocument.ValidationResult := SkillDocument.ValidationResult(true, [], [])

  const InitialMetadata: Metadata := Metadata("", "", "1.0.0")

  /** The stored validation is not the validation of the stored text when the text is empty. */
  lemma InitialValidationIsStale()
    ensures InitialValidation != SkillDocument.Validation(SkillDocument.Strict, "")
    ensures !SkillDocument.Validation(SkillDocument.Strict, "").valid
  {
    SkillDocument.BlankContent("", SkillDocument.Frontmatter(SkillDocument.Strict, ""));
  }

  class EditorState {
    var chatMessages: seq<ChatMessage>
    var skillContent: string
    var metadata: Metadata
    var activeFile: ActiveFile
    var isGenerating: bool
    var generateError: Option<string>
    var validation: SkillDocument.ValidationResult
    var paymentState: PaymentState
    var paymentError: Option<string>
    var skillId: Option<string>
    var walletAddress: Option<string>

    /** Every field holds its initial value. */
    predicate IsInitial()
      reads this
    {
      && chatMessages == []
      && skillContent == ""
      && metadata == InitialMetadata
      && activeFile == Skill
      && !isGenerating
      && generateError == None
      && validation == InitialValidation
      && paymentState == Idle
      && paymentError == None
      && skillId == None
      && walletAddress == None
    }

    /** The cached validation is the strict validator's verdict on the current text. */
    ghost predicate ValidationCurrent()
      reads this
    {
      validation == SkillDocument.Validation(SkillDocument.Strict, skillContent)
    }

    constructor ()
      ensures IsInitial()
      ensures !ValidationCurrent()
    {
      chatMessages := [];
      skillContent := "";
      metadata := InitialMetadata;
      activeFile := Skill;
      isGenerating := false;
      generateError := None;
      validation := InitialValidation;
      paymentState := Idle;
      paymentError := None;
      skillId := None;
      walletAddress := None;
      InitialValidationIsStale();
    }

    /** `addChatMessage`: one more message at the end, the earlier ones as they were. */
    method AddChatMessage(role: Role, content: string, id: string, timestamp: int)
      modifies this`chatMessages
      ensures chatMessages == old(chatMessages) + [ChatMessage(id, role, content, timestamp)]
    {
      chatMessages := chatMessages + [ChatMessage(id, role, content, timestamp)];
    }

    /** `setSkillContent`: the text and, recomputed from it, the validation. */
    method SetSkillContent(content: string)
      modifies this`skillContent, this`validation
      ensures skillContent == content
      ensures ValidationCurrent()
    {
      var result := SkillDocument.ValidateSkillContent(SkillDocument.Strict, content);
      skillContent := content;
      validation := result;
    }

    method SetMetadata(m: Metadata)
      modifies this`metadata
      ensures metadata == m
    {
      metadata := m;
    }

    method SetActiveFile(file: ActiveFile)
      modifies this`activeFile
      ensures activeFile == file
    {
      activeFile := file;
    }

    method SetIsGenerating(generating: bool)
      modifies this`isGenerating
      ensures isGenerating == generating
    {
      isGenerating := generating;
    }

    method SetGenerateError(error: Option<string>)
      modifies this`generateError
      ensures generateError == error
    {
      generateError := error;
    }

    /** Any state may follow any other: the store forbids no transition. */
    method SetPaymentState(state: PaymentState)
      modifies this`paymentState
      ensures paymentState == state
    {
      paymentState := state;
    }

    method SetPaymentError(error: Option<string>)
      modifies this`paymentError
      ensures paymentError == error
    {
      paymentError := error;
    }

    method SetSkillId(id: Option<string>)
      modifies this`skillId
      ensures skillId == id
    {
      skillId := id;
    }

    method SetWalletAddress(address: Option<string>)
      modifies this`walletAddress
      ensures walletAddress == address
    {
      walletAddress := address;
    }

    /** `resetPayment`: back to idle with no error; the skill id and wallet stay. */
    method ResetPayment()
      modifies this`paymentState, this`paymentError
      ensures paymentState == Idle && paymentError == None
    {
      paymentState := Idle;
      paymentError := None;
    }

    /** `resetAll`: every field back to its initial value (the saved draft is not modelled). */
    method ResetAll()
      modifies this
      ensures IsInitial()
      ensures !ValidationCurrent()
    {
      chatMessages := [];
      skillContent := "";
      metadata := InitialMetadata;
      activeFile := Skill;
      isGenerating := false;
      generateError := None;
      validation := InitialValidation;
      paymentState := Idle;
      paymentError := None;
      skillId := None;
      walletAddress := None;
      InitialValidationIsStale();
    }
  }
}
