/** Reading a line range of a text file, and the unbounded reader a trusted workspace falls back on. */
module TextFileReader {
  import opened Wrappers
  import opened Numbers
  import opened TextLines

  const MAX_FILE_READ_BYTES: nat := 2 * 1024 * 1024

  /**
   What is stored at a path: its size, whether a NUL is among its first bytes, whether its name says image, its
   decoded text.
   */
  datatype File = Missing | Unreadable | Stored(size: nat, binary: bool, image: bool, text: string)

  datatype ReadError = InvalidInput | FileNotFound | FileTooLarge | BinaryFile | InternalError

  datatype LineRange = LineRange(startLine: Option<int>, endLine: Option<int>)

  datatype FileText = FileText(content: string, startLine: int, endLine: int)

  predicate IsValidRange(range: LineRange) {
    && (range.startLine.Some? ==> range.startLine.value >= 1)
    && (range.endLine.Some? ==> range.endLine.value >= 1)
    && (range.startLine.Some? && range.endLine.Some? ==> range.startLine.value <= range.endLine.value)
  }

  function Read(file: File, range: LineRange): Result<FileText, ReadError> {
    if !IsValidRange(range) then Err(InvalidInput)
    else
      match file
      case Missing => Err(FileNotFound)
      case Unreadable => Err(FileNotFound)
      case Stored(size, binary, _, text) =>
        if size > MAX_FILE_READ_BYTES then Err(FileTooLarge)
        else if binary then Err(BinaryFile)
        else
          var lines := RawLines(text);
          var startLine := if range.startLine.Some? then range.startLine.value else 1;
          var endLine := if range.endLine.Some? then range.endLine.value else |lines|;
          if startLine > |lines| && !(lines == [] && startLine == 1) then Err(InvalidInput)
          else if lines == [] then Ok(FileText("", startLine, 0))
          else Ok(FileText(Concat(lines[startLine - 1..Min(endLine, |lines|)]), startLine, Min(endLine, |lines|)))
  }

  /** What the reader takes for text. */
  predicate IsText(file: File) {
    file.Stored? && file.size <= MAX_FILE_READ_BYTES && !file.binary
  }

  lemma WholeRead(file: File)
    requires IsText(file)
    ensures Read(file, LineRange(None, None)) == Ok(FileText(file.text, 1, |RawLines(file.text)|))
  {
    var lines := RawLines(file.text);
    assert lines[0..|lines|] == lines;
    ConcatRaw(file.text);
  }

  lemma RangeRead(file: File, start: int, end: int)
    requires IsText(file) && 1 <= start <= end && start <= |RawLines(file.text)|
    ensures var lines := RawLines(file.text);
            var stop := Min(end, |lines|);
            Read(file, LineRange(Some(start), Some(end))) == Ok(FileText(Concat(lines[start - 1..stop]), start, stop))
  {
  }

  /** Reading without a range gives the text back, and two adjoining ranges give what their union gives. */
  lemma RangesTile(file: File, start: int, middle: int, end: int)
    requires IsText(file) && 1 <= start <= middle < end && middle < |RawLines(file.text)|
    ensures Read(file, LineRange(None, None)) == Ok(FileText(file.text, 1, |RawLines(file.text)|))
    ensures var a := Read(file, LineRange(Some(start), Some(middle)));
            var b := Read(file, LineRange(Some(middle + 1), Some(end)));
            var both := Read(file, LineRange(Some(start), Some(end)));
            && a.Ok? && b.Ok? && both.Ok?
            && a.value.endLine + 1 == b.value.startLine
            && both.value == FileText(a.value.content + b.value.content, start, b.value.endLine)
  {
    hide Read, Concat, RawLines;
    WholeRead(file);
    RangeRead(file, start, middle);
    RangeRead(file, middle + 1, end);
    RangeRead(file, start, end);
    var lines := RawLines(file.text);
    var stop := Min(end, |lines|);
    ConcatAppend(lines[start - 1..middle], lines[middle..stop]);
    assert lines[start - 1..middle] + lines[middle..stop] == lines[start - 1..stop];
  }

  /**
   A text is refused exactly when it is too large or the range starts after its last line, the empty file having one
   empty line.
   */
  lemma RefusedIff(file: File, start: int, end: int)
    requires file.Stored? && !file.binary && 1 <= start <= end
    ensures Read(file, LineRange(Some(start), Some(end))).Err? <==>
            file.size > MAX_FILE_READ_BYTES || (start > |RawLines(file.text)| && start > 1)
  {
  }

  /** Each way of refusing a file, and when it applies: the range is looked at first, then the file, then its lines. */
  lemma RefusedWith(file: File, range: LineRange)
    ensures var from := if range.startLine.Some? then range.startLine.value else 1;
            var valid := from >= 1 && (range.endLine.Some? ==>
                           range.endLine.value >= 1 && (range.startLine.Some? ==> from <= range.endLine.value));
            match Read(file, range)
            case Err(FileNotFound) => valid && !file.Stored?
            case Err(FileTooLarge) => valid && file.Stored? && file.size > 2 * 1024 * 1024
            case Err(BinaryFile) => valid && file.Stored? && file.size <= 2 * 1024 * 1024 && file.binary
            case Err(InvalidInput) => valid ==> IsText(file) && from > 1 && from > |RawLines(file.text)|
            case Err(InternalError) => false
            case Ok(text) => valid && IsText(file) && text.startLine == from && text.endLine <= |RawLines(file.text)|
  {
    hide RawLines, Concat;
  }

  /** What the file service hands on: a text range, or a file that is only shown as base64. */
  datatype Served = Text(text: FileText) | Base64(startLine: int, endLine: int)

  /** The unbounded reader: always the whole file. */
  function ReadUnbounded(file: File): Result<Served, ReadError> {
    if !file.Stored? then Err(FileNotFound)
    else if file.image || file.binary then Ok(Base64(1, 1))
    else Ok(Text(FileText(file.text, 1, if file.text == "" then 1 else |SplitLines(file.text)|)))
  }

  /** `readFile` with a line range: a trusted workspace falls back on the unbounded reader, whatever the error was. */
  function Serve(file: File, trusted: bool, range: LineRange): Result<Served, ReadError> {
    var read := Read(file, range);
    if read.Ok? then Ok(Text(read.value))
    else if trusted then ReadUnbounded(file)
    else Err(read.error)
  }

  /**
   When the reader refuses: outside a trusted workspace that is the answer; in one, an image or a binary file is shown
   as base64, and any other file is given whole, whatever range was asked for.
   */
  lemma ServedInstead(file: File, trusted: bool, range: LineRange)
    requires Read(file, range).Err?
    ensures !trusted ==> Serve(file, trusted, range) == Err(Read(file, range).error)
    ensures trusted && !file.Stored? ==> Serve(file, trusted, range) == Err(FileNotFound)
    ensures trusted && file.Stored? && (file.image || file.binary) ==> Serve(file, trusted, range) == Ok(Base64(1, 1))
    ensures trusted && file.Stored? && !file.image && !file.binary ==>
              var served := Serve(file, trusted, range);
              && served.Ok? && served.value.Text?
              && served.value.text.content == file.text && served.value.text.startLine == 1
              && served.value.text.endLine == |SplitLines(file.text)|
  {
    hide Read;
    if file.Stored? && file.text == "" {
      assert SplitLines("") == [""];
    }
  }
}
