/**
 * The request syntax of `handle_client`: a request is one received text;
 * a request that starts with "ADD " or "GET " names a program by its second
 * space-separated field, and every other request is invalid.
 */
module Protocol {
  import opened Common
  import opened Fields

  const AddPrefix: string := "ADD "
  const GetPrefix: string := "GET "

  datatype Request = Add(name: string) | Get(name: string) | Invalid

  /** Replies the server sends, as the bytes written to the socket. */
  const ProgramAdded: Bytes := Ascii("Program added")
  const NotFoundOrNoExec: Bytes := Ascii("Program not found or no execute permission")
  const OutputNotFound: Bytes := Ascii("Output not found")

  /** `request.split(" ")[1]` for a request that begins with a command word and a space. */
  function Argument(request: string): (name: string)
    requires StartsWith(request, AddPrefix) || StartsWith(request, GetPrefix)
    ensures IsFirstField(request[|AddPrefix|..], ' ', name)
  {
    CommandFields(request);
    Split(request, ' ')[1]
  }

  /** The command word holds no space, so the second field starts right after the prefix. */
  lemma CommandFields(request: string)
    requires StartsWith(request, AddPrefix) || StartsWith(request, GetPrefix)
    ensures |Split(request, ' ')| >= 2
    ensures IsFirstField(request[4..], ' ', Split(request, ' ')[1])
  {
    var verb := request[..3];
    assert verb == "ADD" || verb == "GET";
    assert request == verb + [' '] + request[4..];
    SplitAt(verb, ' ', request[4..]);
    SplitFirst(request[4..], ' ');
  }

  /** Dispatch on the request's prefix; the name is the text after the prefix up to the next space. */
  function Parse(request: string): (r: Request)
    ensures r.Add? <==> StartsWith(request, AddPrefix)
    ensures r.Get? <==> StartsWith(request, GetPrefix)
    ensures r.Add? ==> IsFirstField(request[|AddPrefix|..], ' ', r.name)
    ensures r.Get? ==> IsFirstField(request[|GetPrefix|..], ' ', r.name)
  {
    if StartsWith(request, AddPrefix) then Add(Argument(request))
    else if StartsWith(request, GetPrefix) then Get(Argument(request))
    else Invalid
  }

  /** The text a client types and sends for a command (client.py sends the line as entered). */
  function Format(command: Request): string
    requires !command.Invalid?
  {
    match command
    case Add(name) => AddPrefix + name
    case Get(name) => GetPrefix + name
  }

  /** A command whose name holds no space survives the trip from client to server. */
  lemma ParseFormat(command: Request)
    requires !command.Invalid? && ' ' !in command.name
    ensures Parse(Format(command)) == command
  {
    var request := Format(command);
    assert request[4..] == command.name;
    FirstFieldUnique(command.name, ' ', command.name, Parse(request).name);
  }

  /** Fields after the name are ignored. */
  lemma ParseIgnoresTrailingFields(command: Request, extra: string)
    requires !command.Invalid? && ' ' !in command.name
    ensures Parse(Format(command) + " " + extra) == command
  {
    var request := Format(command) + " " + extra;
    var rest := command.name + " " + extra;
    assert request[4..] == rest;
    assert rest[..|command.name|] == command.name;
    FirstFieldUnique(rest, ' ', command.name, Parse(request).name);
  }

  /** Conversely, every valid request is the formatted command, then nothing or a space and more text. */
  lemma FormatParse(request: string)
    requires !Parse(request).Invalid?
    ensures StartsWith(request, Format(Parse(request)))
    ensures var n := |Format(Parse(request))|; n == |request| || request[n] == ' '
  {
    var command := Parse(request);
    assert request == request[..4] + request[4..];
    assert Format(command) == request[..4] + command.name;
  }
}
