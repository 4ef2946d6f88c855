/** What the two `/add` handlers (handlers/add.py and main.py) share: the
  * fields of the incoming message they read, the argument check, which is
  * the same in both, and the replies they send, as values rather than
  * rendered templates. */
module Command {
  import opened Wrappers
  import Text

  /** The fields of a Telegram message the handlers read. A missing first
    * name is the empty string. */
  datatype Message = Message(chatId: int, userId: int, firstName: string, messageId: int, text: string)

  /** `message.from_user.first_name or "Игрок"`. */
  function DisplayName(m: Message): (name: string)
    ensures name != []
    ensures m.firstName != [] ==> name == m.firstName
  {
    if m.firstName == [] then "Игрок" else m.firstName
  }

  /** Stitches a caterpillar takes away. */
  const CaterpillarPenalty: int := 100

  /** The stitch count a handler goes on with after the caterpillar roll:
    * 100 fewer, but never below 0 (`MAX(stitches - 100, 0)` in the store,
    * `max(0, prev - 100)` in memory). */
  function AfterCaterpillar(stitches: int, caterpillar: bool): (r: int)
    ensures caterpillar && stitches >= CaterpillarPenalty ==> r == stitches - CaterpillarPenalty
    ensures caterpillar && stitches < CaterpillarPenalty ==> r == 0
    ensures !caterpillar ==> r == stitches
  {
    if caterpillar then Max(0, stitches - CaterpillarPenalty) else stitches
  }

  /** Why the argument of `/add` was refused: no digit argument (the prompt
    * reply) or an amount of zero. */
  datatype Rejection = Prompt | NotPositive

  /** What a handler sends back. `Added` carries the values the success
    * template is filled with: the display name, whether a caterpillar came,
    * how many flowers were granted, the stitch count and the bouquet shown
    * (the empty bouquet is shown as a placeholder text). A duplicate
    * message gets no reply. */
  datatype Reply =
    | WrongChat
    | Duplicate
    | Rejected(reason: Rejection)
    | Added(name: string, caterpillar: bool, granted: nat, stitches: int, bouquet: string)

  /** The argument check: split the text on whitespace; the second word must
    * be a digit string, read as a number, and that number must be positive. */
  function ParseAmount(text: string): (r: Result<nat, Rejection>)
    ensures r.Success? ==> r.value > 0
    ensures r == Failure(NotPositive) ==>
      var args := Text.Words(text);
      |args| >= 2 && Text.IsDigits(args[1]) && forall i :: 0 <= i < |args[1]| ==> args[1][i] == '0'
  {
    var args := Text.Words(text);
    if |args| < 2 || !Text.IsDigits(args[1]) then Failure(Prompt)
    else
      var amount := Text.DigitsValue(args[1]);
      Text.ZeroValueIffZeros(args[1]);
      if amount <= 0 then Failure(NotPositive) else Success(amount)
  }

  /** `/add <n>` with a positive n written in decimal is accepted with amount n. */
  lemma ParseAmountAccepts(command: string, n: nat)
    requires Text.IsWord(command) && n > 0
    ensures ParseAmount(command + [' '] + Text.Decimal(n)) == Success(n)
  {
    var d := Text.Decimal(n);
    assert Text.IsWord(d) by {
      forall i | 0 <= i < |d| ensures !Text.IsSpace(d[i]) {
        assert Text.IsDigit(d[i]);
      }
    }
    Text.WordsOfPair(command, d);
    Text.DecimalRoundTrip(n);
  }

  /** Whatever the spacing, leading zeros or extra words, the check reads
    * the second word `d`: a non-digit word gets the prompt, a word of zeros
    * is refused as not positive, and any other digit word is accepted with
    * its decimal value, `int(d)`. */
  lemma ParseAmountReadsSecondWord(text: string, c: string, d: string, rest: seq<string>)
    requires Text.Words(text) == [c, d] + rest
    ensures !Text.IsDigits(d) ==> ParseAmount(text) == Failure(Prompt)
    ensures Text.IsDigits(d) && (forall i :: 0 <= i < |d| ==> d[i] == '0') ==> ParseAmount(text) == Failure(NotPositive)
    ensures Text.IsDigits(d) && (exists i :: 0 <= i < |d| && d[i] != '0') ==>
      ParseAmount(text) == Success(Text.DigitsValue(d))
  {
    assert Text.Words(text)[1] == d;
    if Text.IsDigits(d) {
      Text.ZeroValueIffZeros(d);
    }
  }

  /** Any text that splits into fewer than two words gets the prompt: the
    * empty text, `/add` alone, or `/add` followed only by whitespace. */
  lemma ParseAmountNeedsArgument(text: string)
    requires |Text.Words(text)| < 2
    ensures ParseAmount(text) == Failure(Prompt)
  {
  }

  /** A bare command word, `/add` with nothing after it, gets the prompt. */
  lemma ParseAmountBareCommand(command: string)
    requires Text.IsWord(command)
    ensures ParseAmount(command) == Failure(Prompt)
  {
    Text.WordsOfWord(command);
    ParseAmountNeedsArgument(command);
  }

  /** `/add 0` (or `/add 000`) is refused as not positive. */
  lemma ParseAmountRefusesZero(command: string, zeros: string)
    requires Text.IsWord(command) && zeros != []
    requires forall i :: 0 <= i < |zeros| ==> zeros[i] == '0'
    ensures ParseAmount(command + [' '] + zeros) == Failure(NotPositive)
  {
    assert Text.IsWord(zeros) by {
      forall i | 0 <= i < |zeros| ensures !Text.IsSpace(zeros[i]) {
        assert zeros[i] == '0';
      }
    }
    Text.WordsOfPair(command, zeros);
    Text.ZeroValueIffZeros(zeros);
  }
}
