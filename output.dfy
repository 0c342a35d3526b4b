/**
 * The choices of `guardar_resultados`: which formats the menu answer selects, where
 * each file goes, and which file is attached when the report is mailed.
 */
module Output {
  import opened Wrappers

  /** What one answer to the format menu does. */
  datatype FormatChoice =
    | Back                           // "4": leave without writing
    | Invalid                        // anything else: complain and ask again
    | Write(csv: bool, excel: bool)  // "1", "2" or "3": the formats to write

  /** The answer to the format menu, compared as the exact string typed. */
  function ParseFormatOption(answer: string): (c: FormatChoice)
    ensures c == Back <==> answer == "4"
    ensures c.Write? <==> answer == "1" || answer == "2" || answer == "3"
    ensures c.Write? ==> (c.csv <==> answer != "2") && (c.excel <==> answer != "1")
    ensures c.Write? ==> c.csv || c.excel
  {
    if answer == "4" then Back
    else if answer !in ["1", "2", "3"] then Invalid
    else Write(answer in ["1", "3"], answer in ["2", "3"])
  }

  /**
   * The menu loop: answers are read one after another until one is not invalid.
   * `used` is how many answers were consumed; `None` means the answers ran out
   * while the menu was still asking.
   */
  method SelectFormats(answers: seq<string>) returns (choice: Option<FormatChoice>, used: nat)
    ensures used <= |answers|
    ensures forall k :: 0 <= k < used - 1 ==> ParseFormatOption(answers[k]) == Invalid
    ensures choice.None? ==> used == |answers| && forall k :: 0 <= k < |answers| ==> ParseFormatOption(answers[k]) == Invalid
    ensures choice.Some? ==> used > 0 && choice.value == ParseFormatOption(answers[used - 1]) && choice.value != Invalid
  {
    used := 0;
    while used < |answers|
      invariant used <= |answers|
      invariant forall k :: 0 <= k < used ==> ParseFormatOption(answers[k]) == Invalid
    {
      var c := ParseFormatOption(answers[used]);
      used := used + 1;
      if c != Invalid {
        return Some(c), used;
      }
    }
    choice := None;
  }

  const OUTPUT_DIR := "generados"

  /**
   * `Path('generados') / name`: an absolute name replaces the directory; any other
   * name is placed inside it.
   */
  function InOutputDir(name: string): (path: string)
    ensures |name| > 0 && name[0] == '/' ==> path == name
    ensures !(|name| > 0 && name[0] == '/') ==> path == OUTPUT_DIR + "/" + name
  {
    if |name| > 0 && name[0] == '/' then name else OUTPUT_DIR + "/" + name
  }

  /** The files a save writes. */
  datatype Files = Files(csvFile: Option<string>, excelFile: Option<string>)

  /** The CSV and Excel paths written for a format choice and a base name. */
  function OutputFiles(csv: bool, excel: bool, base: string): (f: Files)
    ensures f.csvFile.Some? <==> csv
    ensures f.excelFile.Some? <==> excel
    ensures f.csvFile.Some? ==> f.csvFile.value == InOutputDir(base + ".csv")
    ensures f.excelFile.Some? ==> f.excelFile.value == InOutputDir(base + ".xlsx")
  {
    Files(
      if csv then Some(InOutputDir(base + ".csv")) else None,
      if excel then Some(InOutputDir(base + ".xlsx")) else None)
  }

  /** `archivo_excel if archivo_excel else archivo_csv`. */
  function Attachment(f: Files): (a: Option<string>)
    ensures f.excelFile.Some? ==> a == f.excelFile
    ensures f.excelFile.None? ==> a == f.csvFile
  {
    if f.excelFile.Some? then f.excelFile else f.csvFile
  }

  /** `enviar_informe.lower() == 's'`: only "s" and "S" ask for the mail. */
  predicate WantsMail(answer: string) {
    answer == "s" || answer == "S"
  }

  /** What a save does once the format is chosen. */
  datatype SavePlan = SavePlan(files: Files, mail: Option<(string, string)>)

  /**
   * One pass of the save: write the chosen formats under `base`, then, when the user
   * asks for it, mail the attachment to `recipient`.
   */
  function PlanSave(answer: string, base: string, mailAnswer: string, recipient: string): (p: Option<SavePlan>)
    ensures p.Some? <==> ParseFormatOption(answer).Write?
    ensures p.Some? ==> p.value.files == OutputFiles(ParseFormatOption(answer).csv, ParseFormatOption(answer).excel, base)
    ensures p.Some? ==> (p.value.mail.Some? <==> WantsMail(mailAnswer))
  {
    match ParseFormatOption(answer)
    case Write(csv, excel) =>
      var files := OutputFiles(csv, excel, base);
      Some(SavePlan(files, if WantsMail(mailAnswer) && Attachment(files).Some? then Some((recipient, Attachment(files).value)) else None))
    case _ => None
  }

  /**
   * The attachment is the Excel file when one was written and the CSV file otherwise;
   * every valid choice writes a file, so the "no file to send" branch is never taken.
   */
  lemma MailCarriesPreferredFile(answer: string, base: string, mailAnswer: string, recipient: string)
    requires PlanSave(answer, base, mailAnswer, recipient).Some?
    requires WantsMail(mailAnswer)
    ensures var p := PlanSave(answer, base, mailAnswer, recipient).value;
      && p.mail == Some((recipient, if answer == "1" then InOutputDir(base + ".csv") else InOutputDir(base + ".xlsx")))
  {
  }

  /** Choosing both formats writes two different files. */
  lemma BothFormatsDistinctFiles(base: string)
    ensures var f := OutputFiles(true, true, base); f.csvFile.value != f.excelFile.value
  {
    var c := InOutputDir(base + ".csv");
    var x := InOutputDir(base + ".xlsx");
    assert |x| == |c| + 1;
  }
}
