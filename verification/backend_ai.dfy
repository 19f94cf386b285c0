/** The adjudicator side of backend/src/model.rs, the later variant of the server: shorter
    prompts, no request comment, and the verdict tag stripped from the explanation. */
module BackendAi {
  import opened Strings
  import opened Protocol
  import ArgueAi

  const SystemMessageDirect: string :=
    "The User will give you a statement. Begin your answer with '[TRUE]', if you consider the statement "
    + "to be objectively correct. If not, begin your answer with '[FALSE]' and then provide an explanation.\n\n"
    + "Important:\n\n- Always use this format for your answer.\n\n- Explain very briefly but exact, in one sentence."

  const SystemMessageImplication: string :=
    "The User will give you a list of assumptions and a statement. Begin your answer with '[TRUE]', if you "
    + "consider the statement to be a logical consequence of the assumptions. If not, begin your answer with "
    + "'[FALSE]' and tell why (f.ex. which assumptions are missing).\n\n"
    + "Important:\n\n- Always use this format for your answer.\n\n- Explain very briefly but exact, in one sentence."

  /** The two fixed lines of the implication message, without their line breaks. */
  const PreLine: string := "Assume, the following " + "assumptions would all be true:"
  const MidLine: string := "Now, under this assumption, " + "evaluate if the following " + "statement is a consequence:"

  /** The user message of `check_implication`: the header line, the premises joined by single
      line breaks, the second header line and the conclusion, with nothing added between. */
  function ImplicationMessage(premises: seq<string>, conclusion: string): string {
    (PreLine + "\n") + Join(premises, "\n") + (MidLine + "\n") + conclusion
  }

  /** `parse_ai_result` with the verdict tag removed: `[TRUE]` accepts and `[FALSE]`
      rejects with the text after the tag; any other answer is rejected in full; a transport
      failure is rejected with the internal-error text. */
  function ParseAiResult(reply: AiReply): (r: Ruling)
    ensures reply.Answer? ==> (r.Accepted? <==> StartsWith(reply.text, "[TRUE]"))
    ensures reply.Answer? && r.Accepted? ==> reply.text == "[TRUE]" + r.explanation
    ensures reply.Answer? && StartsWith(reply.text, "[FALSE]") ==> reply.text == "[FALSE]" + r.explanation
    ensures reply.Answer? && !StartsWith(reply.text, "[TRUE]") && !StartsWith(reply.text, "[FALSE]") ==>
      r == Rejected(reply.text)
    ensures reply.TransportError? ==> r == Rejected(TransportFailure + reply.detail)
  {
    match reply
    case TransportError(e) => Rejected(TransportFailure + e)
    case Answer(text) =>
      if StartsWith(text, "[TRUE]") then
        assert text == text[..6] + text[6..];
        assert text[..6][1] == 'T';
        Accepted(text[6..])
      else if StartsWith(text, "[FALSE]") then
        assert text == text[..7] + text[7..];
        Rejected(text[7..])
      else Rejected(text)
  }

  /** Both variants reach the same verdict on every reply; the later one shows the same
      explanation with the verdict tag cut off. */
  lemma VariantsAgree(reply: AiReply)
    ensures var a := ArgueAi.ParseAiResult(reply);
      var b := ParseAiResult(reply);
      && a.Accepted? == b.Accepted?
      && (reply.Answer? ==> exists tag :: tag in {"", "[TRUE]", "[FALSE]"} && a.explanation == tag + b.explanation)
      && (reply.TransportError? ==> a == b)
  {
    var a := ArgueAi.ParseAiResult(reply);
    var b := ParseAiResult(reply);
    if reply.Answer? {
      if StartsWith(reply.text, "[TRUE]") {
        assert a.explanation == "[TRUE]" + b.explanation;
      } else if StartsWith(reply.text, "[FALSE]") {
        assert a.explanation == "[FALSE]" + b.explanation;
      } else {
        assert a.explanation == "" + b.explanation;
      }
    }
  }

  /** Line by line, the message is the first header, every premise but the last on its own
      line, then the last premise RUN TOGETHER with the second header on one line, then the
      conclusion: nothing separates the last premise from the header that follows it. */
  lemma ImplicationLines(premises: seq<string>, conclusion: string)
    requires |premises| >= 1
    requires forall i :: 0 <= i < |premises| ==> '\n' !in premises[i]
    requires '\n' !in conclusion
    ensures var n := |premises|;
      Split(ImplicationMessage(premises, conclusion), '\n')
        == [PreLine] + premises[..n - 1] + [premises[n - 1] + MidLine, conclusion]
  {
    var n := |premises|;
    var lines := [PreLine] + premises[..n - 1] + [premises[n - 1] + MidLine, conclusion];
    ImplicationJoined(premises, conclusion);
    assert '\n' !in MidLine && '\n' !in PreLine;
    forall i | 0 <= i < |lines|
      ensures '\n' !in lines[i]
    {
      if 1 <= i < n {
        assert lines[i] == premises[i - 1];
      } else if i == n {
        assert lines[i] == premises[n - 1] + MidLine;
      }
    }
    SplitJoin(lines, '\n');
  }

  /** The implication message is those lines joined by line breaks. */
  lemma ImplicationJoined(premises: seq<string>, conclusion: string)
    requires |premises| >= 1
    ensures var n := |premises|;
      Join([PreLine] + premises[..n - 1] + [premises[n - 1] + MidLine, conclusion], "\n")
        == ImplicationMessage(premises, conclusion)
  {
    var n := |premises|;
    var middle := premises[..n - 1] + [premises[n - 1] + MidLine];
    var lines := [PreLine] + middle + [conclusion];
    assert lines == [PreLine] + premises[..n - 1] + [premises[n - 1] + MidLine, conclusion];
    JoinLast(premises, "\n", MidLine);
    JoinAppend([PreLine], middle, "\n");
    JoinAppend([PreLine] + middle, [conclusion], "\n");
    calc {
      Join(lines, "\n");
      PreLine + "\n" + Join(middle, "\n") + "\n" + conclusion;
      PreLine + "\n" + (Join(premises, "\n") + MidLine) + "\n" + conclusion;
      ImplicationMessage(premises, conclusion);
    }
  }

  /** Text appended after a join lands on the last part. */
  lemma JoinLast(parts: seq<string>, sep: string, x: string)
    requires |parts| >= 1
    ensures var n := |parts|;
      Join(parts, sep) + x == Join(parts[..n - 1] + [parts[n - 1] + x], sep)
  {
    var n := |parts|;
    if n == 1 {
      assert parts[..0] + [parts[0] + x] == [parts[0] + x];
    } else {
      assert parts == parts[..n - 1] + [parts[n - 1]];
      JoinAppend(parts[..n - 1], [parts[n - 1]], sep);
      JoinAppend(parts[..n - 1], [parts[n - 1] + x], sep);
    }
  }
}
