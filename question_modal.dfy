/**
 * The host's question dialog, a function of its props: the selected cell,
 * the question and answer text and whether the question is revealed.
 */
module QuestionModal {
  import opened Wrappers
  import opened Board

  /** The three colour buttons, in the order the dialog shows them. */
  const ColourChoices: seq<Owner> := [Green, Purple, Unowned]

  /** What the dialog shows. */
  datatype ModalView = ModalView(
    letter: char,                 // the selected cell's letter, in the title
    revealButton: bool,           // the "show question" button
    questionText: Option<string>, // the question, once revealed
    answerBlock: Option<string>,  // the answer panel, host only
    colours: seq<Owner>)          // the colour buttons

  /** The call a colour button makes to the host: the chosen colour and the selected cell's id. */
  datatype AnswerCall = AnswerCall(colour: Owner, cellId: int)

  /**
   * The rendered dialog; nothing at all without a selected cell. A question
   * that is undefined renders as empty text.
   */
  function Render(selectedCell: Option<Cell>, question: Option<string>, answer: string,
                  isQuestionRevealed: bool): (v: Option<ModalView>)
    ensures v.None? <==> selectedCell.None?
    ensures v.Some? ==> v.value.letter == selectedCell.value.letter
    // the reveal button while hidden, the question text once revealed: never both, always one
    ensures v.Some? ==> (v.value.revealButton <==> !isQuestionRevealed)
    ensures v.Some? ==> (v.value.revealButton <==> v.value.questionText.None?)
    ensures v.Some? && isQuestionRevealed ==>
              v.value.questionText == Some(if question.Some? then question.value else "")
    // the answer only with the revealed question, and only when there is one
    ensures v.Some? ==> (v.value.answerBlock.Some? <==> isQuestionRevealed && answer != "")
    ensures v.Some? && v.value.answerBlock.Some? ==>
              v.value.answerBlock.value == answer && v.value.questionText.Some?
    // the colour buttons do not depend on the reveal flag
    ensures v.Some? ==> v.value.colours == ColourChoices
  {
    match selectedCell
    case None => None
    case Some(cell) =>
      Some(ModalView(
        cell.letter,
        !isQuestionRevealed,
        if isQuestionRevealed then Some(if question.Some? then question.value else "") else None,
        if isQuestionRevealed && answer != "" then Some(answer) else None,
        ColourChoices))
  }

  /** Every owner a cell can have is one of the offered colours, and they are distinct. */
  lemma ColourChoicesComplete(o: Owner)
    ensures o in ColourChoices
    ensures |ColourChoices| == 3
    ensures forall i, j :: 0 <= i < j < |ColourChoices| ==> ColourChoices[i] != ColourChoices[j]
  {
  }

  /**
   * A colour button forwards the chosen colour with the selected cell's id
   * (the dialog then closes); with no selected cell there is no button.
   */
  function Dispatch(selectedCell: Option<Cell>, colour: Owner): (call: Option<AnswerCall>)
    ensures call.Some? <==> Render(selectedCell, None, "", false).Some?
    ensures call.Some? ==> call.value.colour == colour && call.value.cellId == selectedCell.value.id
  {
    if selectedCell.Some? then Some(AnswerCall(colour, selectedCell.value.id)) else None
  }
}
