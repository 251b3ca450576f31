# laravel-ircbot in Dafny

A model of the core of laravel-ircbot, an IRC bot written as a set of Laravel
bundles. The model covers:

- the protocol layer of the `irc` bundle: `IRC\Message` (parsing server lines,
  building client commands, classifying numerics, the accessors), `IRC\Sender`
  (message prefixes) and `IRC\Command` (private messages read as commands);
- `IRC\Client`, which logs in, waits for the end of the MOTD, joins the
  configured channels, then reads the server's lines, answers PING, hands every
  message to the event listeners and reacts to WHOIS replies about itself, to
  invitations and to private messages from trusted users;
- the console colouring of the `ANSI` library and the client's logging function;
- the handler bundles: the core commands (`help`, `join`, `part`, `quit`,
  `say`, `notice`, `act`, `echo`), the trigger responses of irc-general, the
  `!ugt` explainer, the qwebirc greeter, the feed notifier and the bundle
  watcher.

Value objects (messages, senders, commands, feed items) are datatypes and
functions. Code that updates state in place is a class:

- `Clients.Client` holds the client's own identity, the socket lines still to
  read, the lines written and the log calls;
- `Feeds.Notifier` holds the feed timestamps of the cache;
- `Bundles.Watcher` holds the `$updated` date and the `bundle-rss` cache entry.

Each method of these classes is proved equal to a function on the old state.
The properties of the bot are lemmas about those functions.

Outside world:

- The socket is a sequence of lines to read plus the sequence written.
- The event dispatcher (`Event::fire`) is a parameter. It gives, for an event
  name and its argument, either one reply per registered listener or an
  exception. Being a function of the name and the argument alone, it cannot
  hold state: within one Clients session no listener remembers anything
  between messages. The ping listeners that do (the feed notifier's cache and
  clock, the bundle watcher's `$updated`) are modelled only on their own, as
  the Feeds.Notifier and Bundles.Watcher classes.
- The configuration is a `Config` value.
- The clock (`mktime()`, `time()`) is an integer parameter.
- The Laravel cache is a map from keys to values with an expiry time.
- The fetched RSS document is a parameter; `None` stands for a feed that
  could not be read or parsed.

PHP's semantics are written out where the code depends on them:

- `end([])` and `strpos` with no match are `false`.
- The three-part `?:` falls back on `""` and `"0"`, which PHP reads as false.
- `$x == null` on a string holds exactly when the string is empty.
- `explode` on `""` gives `[""]`.
- `str_replace` with arrays substitutes one pair after the other.
- `strcmp(a, b) < 0` is lexicographic order on characters.
- Laravel's `Cache::put` lasts `60 * minutes` seconds.

Modules, one per source file:

| module | file |
|---|---|
| `Text` (PHP string primitives) | text.dfy |
| `Messages` | message.dfy |
| `Senders` | sender.dfy |
| `Commands` | command.dfy |
| `Clients` | client.dfy |
| `Ansi` | ansi.dfy |
| `Logger` | logger.dfy |
| `CoreCommands` | core_commands.dfy |
| `Triggers` | triggers.dfy |
| `Ugt` | ugt.dfy |
| `Qweb` | qweb.dfy |
| `Feeds` | feeds.dfy |
| `Bundles` | bundles.dfy |

The members of `Text` (`At`, `Truthy`, `Last`, `Split`, `Join`, `Find`,
`Replace`, `Trim`, `Lower`, `LexLess` and the lemmas about them) model PHP's
builtins, not functions of the bot, so they have no rows below. The members
that do have rows rely on their contracts.

## Model

| member | source | states |
|---|---|---|
| Messages.ParseParams | bundles/irc/lib/message.php:1335-1343 | Without a colon, every space separates a parameter: the parameters hold no space and joined by spaces give the text back. With a colon, the text after the first colon is one last parameter, kept whole. A colon at the start leaves no middles. Otherwise the text before the character that precedes the colon is split into middles, which hold no space and no colon. |
| Messages.Parse | bundles/irc/lib/message.php:1298-1346 | No message (PHP's false) exactly when the line is empty once its trailing CR and LF are gone. Otherwise the stripped line is kept as raw. There is a sender exactly when the line starts with `:`; the sender is the first word, read by Sender::parse. The command is the next space-free word and the parameters are the ParseParams of what follows it. |
| Messages.Spliced | bundles/irc/lib/message.php:1376-1381 | An array given as the first argument is spliced in place: its items come first, then the other arguments in order. Otherwise every argument is kept in order. |
| Messages.Guard | bundles/irc/lib/message.php:1386-1390 | The last argument gains a leading colon exactly when it holds a space and does not start with a colon. Once guarded, an argument that holds a space starts with a colon. |
| Messages.Make | bundles/irc/lib/message.php:1362-1403 | The command is upper-cased and the arguments spliced. Only the last argument is guarded. raw is the command and the parameters joined by spaces. The sender is the one given. |
| Messages.UpperCommands | bundles/irc/lib/message.php:1643-1857 | The commands the helpers send are already upper case, so Make keeps them as written. |
| Messages.MakeOfWords | bundles/irc/lib/message.php:1362-1403 | Make with an upper-case command and plain strings: the strings become the parameters in order, the last one guarded. raw is the command, a space and the parameters. |
| Messages.OneWord | bundles/irc/lib/message.php:1362-1403 | Make with one parameter keeps it, guarded. |
| Messages.TwoWords | bundles/irc/lib/message.php:1362-1403 | Make with two parameters keeps the first as it is and guards the second. |
| Messages.TrailingWords | bundles/irc/lib/message.php:1362-1403 | A last parameter that already starts with a colon is sent unchanged. |
| Messages.UserWords | bundles/irc/lib/message.php:1362-1403 | Four USER parameters, the last trailing, are sent as they are. |
| Messages.Pass | bundles/irc/lib/message.php:1643-1648 | `PASS <password>`, the password guarded. |
| Messages.Nick | bundles/irc/lib/message.php:1668-1673 | `NICK <nick>`, the nick guarded. |
| Messages.User | bundles/irc/lib/message.php:1691-1696 | `USER <user> 8 * :<realname>`, with mode 8 (invisible) and the real name as the trailing parameter. |
| Messages.Quit | bundles/irc/lib/message.php:1707-1712 | `QUIT :<message> (laravel.com)`: the message and the fixed suffix as the trailing parameter. |
| Messages.JoinChannel | bundles/irc/lib/message.php:1738-1741 | `JOIN <channel> <key>`. The key defaults to empty, and then the line ends in a space. |
| Messages.Part | bundles/irc/lib/message.php:1759-1764 | `PART <channel> :<message>`, the message always trailing. |
| Messages.Privmsg | bundles/irc/lib/message.php:1787-1792 | `PRIVMSG <target> :<text>`, the text always trailing. |
| Messages.Notice | bundles/irc/lib/message.php:1804-1809 | `NOTICE <target> :<text>`, the text always trailing. |
| Messages.Whois | bundles/irc/lib/message.php:1833-1838 | `WHOIS <mask>`, the mask guarded. |
| Messages.Pong | bundles/irc/lib/message.php:1854-1857 | `PONG :<daemon>`, the daemon trailing. |
| Messages.ParseParamsOfJoin | bundles/irc/lib/message.php:1335-1343 | Take parameters whose middles hold no space or colon and whose last one is either trailing or colon-free. Joined by spaces and parsed, they come back as received: a trailing last one loses its colon. |
| Messages.WithTrailing | bundles/irc/lib/message.php:1335-1343 | Parsing middles and a trailing parameter gives the middles and the trailing text without its colon. |
| Messages.TrailingOnly | bundles/irc/lib/message.php:1335-1343 | Parsing a lone trailing parameter gives its text. |
| Messages.NoTrailing | bundles/irc/lib/message.php:1335-1343 | Parsing middles without colons gives them back. |
| Messages.TrailingCase | bundles/irc/lib/message.php:1335-1343 | Parsing at least one middle and a trailing parameter gives the middles and the text. |
| Messages.TrailingAlone | bundles/irc/lib/message.php:1337-1338 | A colon at the start makes the rest the only parameter. |
| Messages.TrailingAfter | bundles/irc/lib/message.php:1335-1343 | For `j :t` with no colon in j: the space-separated words of j, then t. |
| Messages.NoColon | bundles/irc/lib/message.php:1341-1342 | Without a colon the parameters are the explode of the text on spaces. |
| Messages.ParseOfMake | bundles/irc/lib/message.php:1298-1403 | Round trip: for a sendable command and arguments, parsing what Make writes gives the upper-cased command, no sender and Make's parameters. A trailing parameter loses its colon. raw is the same line. |
| Messages.StoredParams | bundles/irc/lib/message.php:1374-1401 | For sendable arguments Make stores the upper-cased command and parameters of wire shape: middles free of spaces and colons, the last one trailing or a bare middle. |
| Messages.ParseOfLine | bundles/irc/lib/message.php:1298-1346 | A line made of a sendable command and wire-shaped parameters parses back into that command and the received parameters, with no sender. |
| Messages.ResponseOrError | bundles/irc/lib/message.php:1447-1472 | No message is both a response and an error. A numeric 000, 100 to 199 or 600 and above is neither. Every response is numeric. |
| Messages.KnownCodes | bundles/irc/lib/message.php:1447-1472 | 376 (end of MOTD), 311 (WHOIS user) and 001 are responses. 433 (nick in use) is an error. PRIVMSG is not numeric. |
| Messages.Target | bundles/irc/lib/message.php:1492-1507 | There is a target exactly when there is a first parameter and either the command is PRIVMSG, NOTICE, JOIN or PART with a first parameter other than `*`, or the command is numeric. The target is always that first parameter. |
| Messages.TargetUnlessThen | bundles/irc/lib/message.php:1517-1521 | `otherwise` exactly when the target equals `unless` ignoring case; a missing target compares as empty. Otherwise the target, or none. |
| Messages.Channel | bundles/irc/lib/message.php:1528-1539 | A channel exactly when the channel parameter exists and starts with `#` or `&`; the channel is that parameter. It is the second parameter for numerics and the first otherwise. |
| Messages.IsNumeric | bundles/irc/lib/message.php:1469-1472 | A numeric command starts with a digit, and a command that starts with anything else, such as PRIVMSG or INVITE, is never numeric. |
| Messages.Code | bundles/irc/lib/message.php:1447-1461 | The value a numeric command is compared by. A three-digit numeric is read digit by digit and is below 1000. |
| Messages.IsResponse | bundles/irc/lib/message.php:1447-1450 | A response is a numeric from 1 to 399 and never one from 100 to 199. |
| Messages.IsError | bundles/irc/lib/message.php:1459-1462 | An error is never a response. Apart from ERROR itself, an error is a numeric of 400 or more. |
| Messages.ChannelParam | bundles/irc/lib/message.php:1530 | The candidate exists exactly when there are more parameters than its index, which is 1 for a numeric and 0 otherwise. The candidate is one of the parameters. |
| Messages.IsChannelName | bundles/irc/lib/message.php:1531 | A channel name starts with `#` or `&`, so never with a digit or with the `@` of a private log file. |
| Messages.Flatten | bundles/irc/lib/message.php:1422-1435 | sendArray sends a flat list of messages as it is, in order, and a list of non-messages sends nothing. |
| Messages.Sendable | bundles/irc/lib/message.php:1362-1403 | The lines Parse reads back: a command and middles without spaces or colons, a last parameter that is trailing or colon-free, and no CR or LF anywhere. Joined by spaces they make a single line. |
| Messages.Params | bundles/irc/lib/message.php:1551-1569 | With enough parameters: the first count - 1 are kept and the last holds all the remaining ones joined by spaces. With fewer: the parameters, then the default (one value, or the value at each index of an array) up to count. A count of 0 gives the parameters unchanged. |
| Messages.RegroupKeepsText | bundles/irc/lib/message.php:1554-1559 | Gathering the surplus parameters into the last item loses no text: joining the items gives the joined parameters. |
| Messages.FlattenAppend | bundles/irc/lib/message.php:1422-1435 | sendArray over a merged list sends the messages of the first list, then those of the second. |
| Messages.FlattenBatch | bundles/irc/lib/message.php:1430-1433 | A nested array sends the same messages as its elements in place. |
| Messages.FlattenIgnored | bundles/irc/lib/message.php:1424-1434 | Entries that are neither messages nor arrays (a listener's null) send nothing. |
| Messages.TrailingExample | bundles/irc/lib/message.php:1335-1343 | `#chan :hello world` gives the channel and the text, spaces kept. |
| Messages.DroppedCharacterExample | bundles/irc/lib/message.php:1337 | The character before the first colon is dropped even when it is no space: `a:b` gives an empty middle and `b`. |
| Messages.EdgeExamples | bundles/irc/lib/message.php:1335-1343 | `:only` gives one parameter `only`. An empty remainder gives one empty parameter. |
| Senders.NickOf | bundles/irc/lib/sender.php:63 | `$sender->nick`: the nick when there is a sender with a nick, and otherwise null, which every caller uses as the empty string. |
| Senders.Run | bundles/irc/lib/sender.php:87 | The longest run of characters of a class at the start of a text: all in the class; the next one, if any, not. |
| Senders.RunOfAll | bundles/irc/lib/sender.php:87 | The run is maximal: it covers every leading character of the class and stops at the first one outside it. |
| Senders.DropColon | bundles/irc/lib/sender.php:87 | The optional leading colon of the patterns is consumed when present. |
| Senders.NickLength | bundles/irc/lib/sender.php:87 | A positive length is a nick of at least two characters (a letter or special, then nick characters), followed by the end or a character that cannot be in a nick. |
| Senders.Parse | bundles/irc/lib/sender.php:75-99 | The text is kept. The sender is either a user or a server (`isUser`, `isServer`), never both. It is a user exactly when the first pattern matches. Otherwise it is a server named by the text without its first character. |
| Senders.Sender.IsUser | bundles/irc/lib/sender.php:131-134 | A user has a nick and reads it back. Anything else reads its nick as empty. |
| Senders.IsNick | bundles/irc/lib/sender.php:87 | A nick holds only nick characters, so never `!`, `@` or a space: the nick ends where the user or the host begins. |
| Senders.IsHost | bundles/irc/lib/sender.php:87 | A host part has at least two characters and does not start with `@`, `!` or a space. |
| Senders.MatchUserFirst | bundles/irc/lib/sender.php:87-89 | A match of the first pattern captures a nick that begins the prefix after the optional colon. |
| Senders.UserThenHost | bundles/irc/lib/sender.php:87 | A match keeps the nick. A captured user holds neither a space nor `@`, and a captured host is a host part. Without a user, nothing follows the nick. |
| Senders.MatchHostFirst | bundles/irc/lib/sender.php:91-93 | A match of the second pattern captures a nick that begins the prefix. When it captures a non-empty host, the user group takes no part. |
| Senders.SecondPatternNeverDecides | bundles/irc/lib/sender.php:87-94 | Whatever the second pattern (host before user) accepts, the first accepts already, so the second never decides the result. |
| Senders.UserFirstSound | bundles/irc/lib/sender.php:87 | Every match of the first pattern has well-formed captures that spell out the prefix without its colon. |
| Senders.UserThenHostSound | bundles/irc/lib/sender.php:87 | What follows the nick is captured as a well-formed user and host that spell it out. |
| Senders.NickLengthOf | bundles/irc/lib/sender.php:87 | The nick is read up to the first character that cannot belong to it. |
| Senders.UserFirstComplete | bundles/irc/lib/sender.php:87 | Every well-formed nick, user and host, with or without the colon, is matched back by the first pattern. |
| Senders.ParseWellFormed | bundles/irc/lib/sender.php:75-99 | Parse reads a well-formed `nick[!user][@host]` back into that nick, user and host, and no server. |
| Senders.MakeServer | bundles/irc/lib/sender.php:107-110 | A server, not a user, whose text and server name are the given name. |
| Senders.MakeUserAsWritten | bundles/irc/lib/sender.php:120-124 | A user, not a server, with the given nick, user and host. Its text is the nick, then `@` and the user when the user is truthy, then `!` and the host when the host is truthy. With the default empty user and host, the call made at login, the text is the nick alone. |
| Senders.MakeUser | bundles/irc/lib/sender.php:120-124 | The same user fields, with the text written `nick!user@host`: `!` and the user when it is truthy, then `@` and the host when it is truthy. With the default empty user and host the text is the nick alone. |
| Senders.MakeUserAsWrittenMisreads | bundles/irc/lib/sender.php:120-124 | The text of makeUser as written is `nick@user!host`. Parsed back as a prefix it gives an empty user and the host `user!host`. |
| Senders.MakeUserRoundTrip | bundles/irc/lib/sender.php:75-124 | The corrected text parses back into the same nick, user and host, for well-formed, non-empty parts. |
| Senders.NickAloneIsUser | bundles/irc/lib/sender.php:87-90 | A prefix of nick characters alone is a user with that nick and no user or host. |
| Senders.LocalhostIsUser | bundles/irc/lib/sender.php:87-90 | `:localhost` names a server but is read as a user. |
| Senders.DottedServer | bundles/irc/lib/sender.php:95-98 | A prefix with a dot after the leading name matches neither pattern and is a server named by the text after the colon. |
| Senders.OneCharacterNickIsServer | bundles/irc/lib/sender.php:87-98 | A one-character name is too short for either pattern, so it is a server. |
| Senders.HostBeforeUser | bundles/irc/lib/sender.php:87-94 | `nick@host!user` is taken by the first pattern, with an empty user and the host `host!user`. |
| Commands.SplitParams | bundles/irc/lib/command.php:50-63 | A leading colon makes the rest one parameter. Otherwise the first ` :` starts a last parameter, kept whole, and the space-separated words before it come first. Without one, every space separates a parameter and joining gives the text back. |
| Commands.Parse | bundles/irc/lib/command.php:41-65 | The name is the body up to the first space, all of it when there is no space, and holds no space. The parameters are SplitParams of the rest, `[""]` when there is no rest. The sender is the message's. |
| Commands.FromMessageAsWritten | bundles/irc/lib/command.php:41-76 | The command made from a message as written keeps the message's sender. Its body is the missing `$message->body`. |
| Commands.FromMessage | bundles/irc/lib/command.php:41-76 | The command is Parse of the last parameter of the message, its text. The sender is kept and the name holds no space. A message without parameters gives the empty name; a text without a space is the name alone, with parameters [""]. |
| Commands.FromMessageOfWords | bundles/irc/lib/command.php:41-76 | A message whose text is a name and colon-free words gives that name and those words. |
| Commands.FromMessageOfTrailing | bundles/irc/lib/command.php:41-76 | A message whose text is a name, words and a " :" parameter gives the name, the words and then the whole trailing text. |
| Commands.ParseOfPlainWords | bundles/irc/lib/command.php:43-63 | A name and colon-free, space-free words joined by spaces parse back into that name and those words. |
| Commands.AsWrittenIgnoresMessage | bundles/irc/lib/command.php:48 | As written, every message gives a command with an empty name and one empty parameter, so no registered command is ever reached. |
| Commands.FromMessageExample | bundles/irc/lib/command.php:41-76 | `join #laravel` names the join command with the parameter `#laravel`. |
| Commands.ParseOfWords | bundles/irc/lib/command.php:48-64 | A body made of a name, words without spaces or colons and a ` :` last text gives back that name, the words and the last text. |
| Commands.ParseOfTrailing | bundles/irc/lib/command.php:54-59 | With a colon-free text before ` :`, the parameters are the words of that text, then the last text. |
| Commands.NameOnlyExample | bundles/irc/lib/command.php:48 | A name alone has one empty parameter. |
| Commands.ColonExample | bundles/irc/lib/command.php:50-53 | A colon right after the name makes the rest a single parameter. |
| Commands.DefaultReply | bundles/irc/lib/command.php:98 | A NOTICE to the sender's nick saying "I don't know what you want me to do". |
| Commands.Run | bundles/irc/lib/command.php:92-102 | When no listener is registered for the name, the only message sent is the default notice. Otherwise the listeners' replies, as they are. |
| Commands.SilentListener | bundles/irc/lib/command.php:94-101 | A registered listener that returns nothing still counts: no default notice, and nothing is sent. |
| Clients.Wire | bundles/irc/lib/message.php:1481-1485 | Each sent message writes its raw line followed by CR LF, one line per message. |
| Clients.Sent | bundles/irc/lib/message.php:1484 | The messages the log records as sent, in order. |
| Clients.SendSpec | bundles/irc/lib/message.php:1481-1485 | Sending appends one sent log entry per message, in order, and changes nothing else. |
| Clients.FlattenNext | bundles/irc/lib/message.php:1424-1434 | sendArray's loop: one more element sends its own messages after those before it. A message is sent itself, an array its flattened contents, anything else nothing. |
| Clients.Skip | bundles/irc/lib/client.php:115-137 | The socket reads of one read(): lines that do not parse are skipped. The unread lines are a suffix; a message found leaves strictly fewer. The end of the stream leaves none. |
| Clients.Handle | bundles/irc/lib/client.php:117-133 | A parsed message is logged as received. ERROR stops reading. PING is answered with a PONG to its first parameter, logged after the PING. Anything else is handed on. The identity and the unread lines are untouched. |
| Clients.ReadSpec | bundles/irc/lib/client.php:113-138 | read(): a message taken consumes at least one line. At the end of the stream the input is used up and nothing is logged. The unread input is always a suffix and the log only grows. |
| Clients.ReadAppends | bundles/irc/lib/client.php:113-138 | A read appends nothing at the end of the stream. Otherwise it appends the message received, then the PONG for a PING; on ERROR only the ERROR. |
| Clients.PingIsAnswered | bundles/irc/lib/client.php:129-133 | A `PING :daemon` line is consumed and handed on. The log shows the PING received, then `PONG :daemon` sent. |
| Clients.PingParses | bundles/irc/lib/message.php:1298-1346 | `PING :daemon` parses as PING with the daemon as first parameter. |
| Clients.ErrorStopsReading | bundles/irc/lib/client.php:125-126 | An ERROR line is logged and read returns null (Stopped), consuming only that line. The main loop ends on it; the MOTD wait goes on with the login. |
| Clients.MotdSpec | bundles/irc/lib/client.php:75-81 | The wait for the end of the MOTD (376) keeps the identity, consumes input and only appends to the log. |
| Clients.ReadSendsOnlyPongs | bundles/irc/lib/client.php:113-138 | The only thing one read sends is a PONG. |
| Clients.MotdSendsOnlyPongs | bundles/irc/lib/client.php:75-81 | While waiting for the end of the MOTD the client sends nothing but PONGs. |
| Clients.Identify | bundles/irc/lib/client.php:86-87 | A PRIVMSG to NickServ of `IDENTIFY <nick> <password>`, with the NickServ nick defaulting to the client's nick. |
| Clients.AfterMotd | bundles/irc/lib/client.php:84-91 | After the MOTD: the identification when a password is configured (PHP truthiness), then the WHOIS about itself. |
| Clients.Registered | bundles/irc/lib/client.php:70-72 | The identity becomes the configured nick. USER and then NICK are sent; the input is untouched. |
| Clients.LoginSpec | bundles/irc/lib/client.php:63-92 | Login leaves the client known by its configured nick. |
| Clients.LoginRegistersFirst | bundles/irc/lib/client.php:70-75 | USER, then NICK, are sent before anything is read. |
| Clients.LoginEnds | bundles/irc/lib/client.php:84-91 | Login's last sent lines are the NickServ identification, when configured, and the WHOIS. |
| Clients.LoginWaitsQuietly | bundles/irc/lib/client.php:72-84 | Between NICK and the identification the client sends only PONGs. |
| Clients.WhoisSpec | bundles/irc/lib/client.php:155-161 | A 311 reply changes only the identity, and logs and consumes nothing. |
| Clients.InviteSpec | bundles/irc/lib/client.php:163-173 | An invitation sends exactly one line and changes nothing else. |
| Clients.PrivateSpec | bundles/irc/lib/client.php:176-189 | The private-message branch with the corrected Command::make of Findings row 1. A private message changes neither the identity nor the input, and nothing is sent when the command's listener raises. |
| Clients.ReactAppends | bundles/irc/lib/client.php:155-189 | The client's own reaction keeps the unread input and only appends to the log. |
| Clients.StepAppends | bundles/irc/lib/client.php:148-189 | One pass of the main loop keeps the unread input and only appends to the log. |
| Clients.ListenersFirst | bundles/irc/lib/client.php:150-153 | The listeners' replies go out first: those of the message's own event (its lower-cased command), then those of `irc::message: *`. |
| Clients.ListenerFailure | bundles/irc/lib/client.php:150-153 | When a listener of either event raises, the process ends before anything of that message is sent. |
| Clients.IdentityOnlyFromWhois | bundles/irc/lib/client.php:155-161 | The identity changes only on a 311 reply whose nick equals the client's nick, ignoring case. It is then rebuilt from that reply's nick, user and host. |
| Clients.InvitePolicy | bundles/irc/lib/client.php:163-173 | An invitation from a nick on the allow list is answered with a JOIN of the invited channel. Anyone else gets the "not to go with strangers" notice. Nothing else is sent. |
| Clients.PrivatePolicy | bundles/irc/lib/client.php:176-189 | With the corrected Command::make, a private message from an allowed nick is run as a command, and its replies or the default notice are sent. Anyone else gets the "not to talk to strangers" notice and no command runs. |
| Clients.IsCode | bundles/irc/lib/client.php:77 | A command of digits only equals the code when its digit value does, so a leading zero does not change it: PHP compares `0376` with 376 as equal. The model recognises digit-only commands; PHP's other numeric strings are under "## Left out". |
| Clients.Allowed | bundles/irc/lib/client.php:179 | Nobody is trusted when the allow list is empty. A message without a sender is trusted only when "" is allowed, which is how PHP's null nick compares. |
| Clients.ToMe | bundles/irc/lib/client.php:176 | A private message to the client is neither a 311 nor an INVITE, so the three branches of the loop exclude each other. Its first parameter, when present, is the client's nick. |
| Clients.ReactSpec | bundles/irc/lib/client.php:155-189 | The client's own reaction keeps the unread input and only appends to the log. It sends nothing when a command listener raises, and it changes the identity only on a 311. |
| Clients.StepSpec | bundles/irc/lib/client.php:148-189 | One pass of the loop keeps the unread input, only appends to the log, and changes the identity only on a 311. |
| Clients.PrivateSpecAsWritten | bundles/irc/lib/client.php:176-189 | The private-message branch with Command::make as written: identity and input are kept, and nothing is sent when the command's listener raises. |
| Clients.PrivateAsWrittenOnlyDefault | bundles/irc/lib/client.php:179-183 | As written, an allowed private message fires `irc::command: ` with the empty name whatever its text. With no listener for that name, the only line sent is "I don't know what you want me to do" to the sender. |
| Clients.OthersIgnored | bundles/irc/lib/client.php:155-189 | A message that is no 311, no INVITE and no private message to the client gets no reaction of its own. |
| Clients.MainStops | bundles/irc/lib/client.php:148 | The main loop ends when a read gives no message. |
| Clients.MainContinues | bundles/irc/lib/client.php:148-191 | After a message the loop goes on with the next read, unless a listener raised. |
| Clients.MainEnd | bundles/irc/lib/client.php:146-192 | A read that ends the loop leaves a session that only appended and, when input is left, just logged an ERROR. |
| Clients.MainStep | bundles/irc/lib/client.php:146-192 | A completed step keeps that shape for the rest of the session. |
| Clients.MainConsumes | bundles/irc/lib/client.php:146-192 | The main loop only appends to the log. It reads the whole input unless a listener's exception ends it or an ERROR arrives, and then the ERROR is the last log entry. |
| Clients.Greeting | bundles/irc/lib/client.php:47-53 | One JOIN per configured channel, in order, then the "I am online" notice to PhillSparks. |
| Clients.MainSpec | bundles/irc/lib/client.php:146-192 | The main loop only appends to the log and never gives back a line it has read. |
| Clients.Session | bundles/irc/lib/client.php:35-57 | A session's log continues the login and the greeting, and the session reads no more lines than it is given. |
| Clients.Initial | bundles/irc/lib/client.php:35-44 | A fresh client has all the server's lines unread and nothing logged. |
| Clients.SendSpecNext | bundles/irc/lib/client.php:47-51 | Sending a list one message at a time sends the list. |
| Clients.SendSpecThen | bundles/irc/lib/client.php:84-91 | Sending two lists one after the other sends their concatenation. |
| Clients.SessionOpening | bundles/irc/lib/client.php:35-55 | Every session starts with USER and NICK, whatever the server sends. It then has login's lines followed by the channel JOINs and the online notice, before any message is handled. |
| Clients.Client.constructor | bundles/irc/lib/client.php:35-58 | The client ends in the state of the session function, and the socket holds exactly the lines the log says were sent. Whether the process died is recorded. |
| Clients.Client.Run | bundles/irc/lib/client.php:45-55 | Login, the greeting and the main loop, from a fresh state, give the session's state. |
| Clients.Client.Send | bundles/irc/lib/message.php:1481-1485 | The socket gets the raw line and the log the sent message. |
| Clients.Client.SendAll | bundles/irc/lib/client.php:47-53 | The messages are sent in order. |
| Clients.Client.SendArray | bundles/irc/lib/message.php:1422-1435 | The messages of a nested reply list are sent depth first, in order. |
| Clients.Client.Received | bundles/irc/lib/client.php:120 | A received message is logged; nothing else changes. |
| Clients.Client.Read | bundles/irc/lib/client.php:113-138 | The result and the new state are those of ReadSpec. |
| Clients.Client.NextMessage | bundles/irc/lib/client.php:115-137 | The socket loop reads up to the first line that parses, or to the end; the log is untouched. |
| Clients.Client.Deliver | bundles/irc/lib/client.php:117-133 | A parsed message is logged, then ERROR stops and PING gets its PONG, as Handle says. |
| Clients.Client.WaitForMotd | bundles/irc/lib/client.php:75-81 | The state after reading up to the end of the MOTD is that of MotdSpec. |
| Clients.Client.Login | bundles/irc/lib/client.php:63-92 | The state after login is that of LoginSpec. |
| Clients.Client.Step | bundles/irc/lib/client.php:150-189 | One pass of the loop body for a message read, as StepSpec says. It reports false when a listener raised. |
| Clients.Client.React | bundles/irc/lib/client.php:155-189 | The client's own reaction, as ReactSpec says. |
| Clients.Client.TakeWhois | bundles/irc/lib/client.php:155-161 | A 311 reply about the client's own nick replaces its identity. |
| Clients.Client.AnswerInvite | bundles/irc/lib/client.php:163-173 | An invitation is accepted or refused by the allow list. |
| Clients.Client.AnswerPrivate | bundles/irc/lib/client.php:176-189 | With the corrected Command::make, a private command runs for an allowed nick and anyone else is refused. The result is false when the command's listener raised. |
| Clients.Client.MainLoop | bundles/irc/lib/client.php:146-192 | The loop ends in the outcome of the main-loop function from the state it started in. |
| Clients.Client.Cycle | bundles/irc/lib/client.php:148-191 | One turn either leaves the rest of the session unchanged with less input, or ends it in the session's outcome. |
| Clients.Client.Handled | bundles/irc/lib/client.php:150-191 | The rest of a turn once a message was read: it goes on, or ends the session in its outcome. |
| Ansi.Escape | application/libraries/ansi.php:193-197 | ESC and `[`, then the parameters joined by `;`, then the code. |
| Ansi.DecimalChars | application/libraries/ansi.php:196 | A rendered integer holds only digits and a minus sign, so `;` separates the parameters without ambiguity. |
| Ansi.EscapeDecodes | application/libraries/ansi.php:193-197 | Splitting the escape between `[` and the code on `;` gives the parameters back, in order. |
| Ansi.Foreground | application/libraries/ansi.php:152-155 | A colour below 10 is raised by FOREGROUND (30); any other code is kept. |
| Ansi.ForegroundCodes | application/libraries/ansi.php:115-155 | The eight named colours become the foreground codes 30 to 37, and such a code is left as it is. |
| Ansi.Reset | application/libraries/ansi.php:183-186 | The reset is `ESC[0m`. |
| Ansi.Color | application/libraries/ansi.php:150-163 | The escape of the bold flag (0 or 1) and the foreground code. When the text is truthy, the text and a reset follow. |
| Ansi.Bold | application/libraries/ansi.php:173-176 | `ESC[1m`, then the text and a reset when the text is truthy. |
| Ansi.ZeroTextIsAbsent | application/libraries/ansi.php:158 | PHP reads "0" as false, so a text of "0" prints like no text at all. |
| Ansi.ColorLayout | application/libraries/ansi.php:150-163 | The colour escape carries the bold flag first and the colour code second. |
| Ansi.RedExample | application/libraries/ansi.php:150-163 | Bold red `x` is `ESC[1;31mx ESC[0m`. |
| Logger.TargetFile | bundles/irc/config/client.php:83-90 | A message to the bot's own nick is filed under `@` and the sender's nick. A channel target is filed under the channel, and any other target under `@` and the target. |
| Logger.Path | bundles/irc/config/client.php:92 | The file is `logs/irc/`, then the name in lower case, then `.log`. |
| Logger.LogFileAsWritten | bundles/irc/config/client.php:78-92 | As written, a message without a target goes to `logs/irc/.log`, and one with a target goes to the file of its TargetFile. |
| Logger.LogFile | bundles/irc/config/client.php:78-92 | As intended, a message without a target goes to the server's file. One with a target goes where the as-written version puts it. |
| Logger.Console | bundles/irc/config/client.php:94-107 | One line ending in a newline: bold when sent, red for a received error. A received line is printed as it is when the nick is empty. |
| Logger.UntargetedAsWritten | bundles/irc/config/client.php:78-92 | As written, every message without a target is appended to `logs/irc/.log`. |
| Logger.PingAsWritten | bundles/irc/config/client.php:78-92 | A PING goes to `logs/irc/.log` as written, and to the server's own lower-cased file as intended; the two differ. |
| Logger.UntargetedToServer | bundles/irc/config/client.php:78-92 | As intended, a message without a target is logged in the server's file, in lower case. |
| Logger.TargetedAgree | bundles/irc/config/client.php:78-92 | Both versions agree on every message that has a target. |
| Logger.PrivateToBot | bundles/irc/config/client.php:83-92 | A private message to the bot is logged in `logs/irc/@<sender>.log`, lower case. |
| Logger.ChannelLog | bundles/irc/config/client.php:87-92 | A channel message is logged in `logs/irc/<channel>.log`, lower case. |
| Logger.LogLine | bundles/irc/config/client.php:92 | The appended line is the time stamp, ` - `, the raw message and CR LF. |
| Logger.SentIsBold | bundles/irc/config/client.php:94-97 | A sent line is printed in bold, then a newline. |
| Logger.PlainColor | application/libraries/ansi.php:150-163 | A plain foreground colour escape is `ESC[0;<code>m`. |
| Logger.ErrorIsRed | bundles/irc/config/client.php:98-101 | A received error is printed in plain red (`ESC[0;31m`). |
| Logger.NickHighlighted | bundles/irc/config/client.php:102-105 | In any other received line, the bot's nick is wrapped in green at its first place and in what follows. |
| Logger.PlainLine | bundles/irc/config/client.php:102-107 | A received line that does not mention the nick is printed as it is. |
| Logger.GreenLayout | bundles/irc/config/client.php:104 | The highlight is `ESC[0;32m`, the nick and a reset. |
| CoreCommands.Head | bundles/irc/start.php:29 | `array_shift`: the first parameter, or null (read as empty) when there is none. |
| CoreCommands.Rest | bundles/irc/start.php:28-30 | The parameters after the first, joined by spaces; empty when there are none. |
| CoreCommands.HeadAndRest | bundles/irc/start.php:28-30 | For two or more parameters, all of them joined is the head, a space and the rest: no word is lost. |
| CoreCommands.Help | bundles/irc/start.php:15-18 | `help`: a PRIVMSG to whoever asked saying "Yeah, you need help!". |
| CoreCommands.JoinChannel | bundles/irc/start.php:20-24 | `join <channel> [<key>]`: a JOIN of the first parameter with the key guarded. A missing key leaves a trailing space. |
| CoreCommands.Part | bundles/irc/start.php:26-32 | `part`: a PART of the first parameter with the other words as the trailing message. |
| CoreCommands.Quit | bundles/irc/start.php:34-43 | `quit`: the "Going offline now" notice to the sender, then a QUIT with all the words and the `(laravel.com)` suffix. |
| CoreCommands.Say | bundles/irc/start.php:45-52 | `say`: a PRIVMSG to the first parameter with the other words as its text. |
| CoreCommands.Notice | bundles/irc/start.php:54-61 | `notice`: a NOTICE to the first parameter with the other words as its text. |
| CoreCommands.Action | bundles/irc/start.php:69 | The CTCP action: `\x01ACTION `, the text, `\x01`. |
| CoreCommands.Act | bundles/irc/start.php:63-70 | `act`: a PRIVMSG to the first parameter whose text is the other words as an action. |
| CoreCommands.Echo | bundles/irc/start.php:72-77 | `echo`: the first word upper-cased is the command and the others its parameters, the last one guarded. Without further words the guarded command alone. |
| CoreCommands.EchoRoundTrip | bundles/irc/start.php:72-77 | What echo sends the server reads back as the same command and parameters, whenever they are sendable. |
| CoreCommands.Listeners | bundles/irc/start.php:15-77 | Firing a command event collects at most one reply from these listeners. |
| CoreCommands.RunCore | bundles/irc/lib/command.php:92-102 | A registered name gets exactly its own reply; any other name gets the default notice. |
| CoreCommands.IsCore | bundles/irc/start.php:15-76 | Every registered name has at least three characters and no space, so the empty name of the as-written Command::make is never one. |
| CoreCommands.Respond | bundles/irc/start.php:15-76 | `quit` gives two messages and every other command one. `join` sends a JOIN, and `say` and `act` send a PRIVMSG. |
| CoreCommands.SayExample | bundles/irc/start.php:45-52 | `say #chan hello world` sends `PRIVMSG #chan :hello world`. |
| Triggers.Destination | bundles/irc-general/start.php:21 | The channel of the message, or the sender's nick when there is none. |
| Triggers.Fires | bundles/irc-general/start.php:23-25 | A trigger that fires has a non-empty word found in the body. A trigger with an empty response never fires. |
| Triggers.AnswerText | bundles/irc-general/start.php:27-39 | A trigger word at the start of the body is answered with the response alone. Every answer ends with the response. |
| Triggers.Answer | bundles/irc-general/start.php:27-40 | A PRIVMSG to the destination carrying the trigger's answer text. |
| Triggers.FirstFiring | bundles/irc-general/start.php:18-25 | The first trigger of the table, in order, whose word occurs in the body with a non-empty response. None when no trigger fires. |
| Triggers.TriggerOn | bundles/irc-general/start.php:16-43 | No answer when no trigger fires. Otherwise the answer of the first trigger that fires. |
| Triggers.FirstFiringIs | bundles/irc-general/start.php:18-25 | The first trigger that fires is the one before which none fires. |
| Triggers.LeadingTrigger | bundles/irc-general/start.php:27-37 | A trigger word opening the body is answered with the response alone. |
| Triggers.FoundAfterNick | bundles/irc-general/start.php:23 | In `nick word...`, the word is first found right after the space. |
| Triggers.AddressedText | bundles/irc-general/start.php:31-39 | A trigger word after a first word fires, and the answer is `<first word>: <response>`. |
| Triggers.AddressedTrigger | bundles/irc-general/start.php:31-39 | `nick word...` is answered at the destination with `nick: <response>`. |
| Triggers.EarlierTriggerWins | bundles/irc-general/start.php:18-25 | The table is scanned in order: `!help` listed before `!helpme` answers `!helpme` with the response of `!help`. |
| Triggers.SilentWithoutWords | bundles/irc-general/start.php:16-43 | A body holding no trigger word gets no answer. |
| Ugt.Highlight | bundles/irc-ugt/start.php:17-31 | The trimmed text after `!ugt` when it is not empty, otherwise the sender's nick in lower case. |
| Ugt.Starts | bundles/irc-ugt/start.php:18-23 | Only a message with parameters whose last one starts with `!ugt`. |
| Ugt.Destination | bundles/irc-ugt/start.php:33 | The channel, or the highlighted nick outside a channel. |
| Ugt.Highlights | bundles/irc-ugt/start.php:36 | Always in a channel. Outside one, exactly when the highlighted nick is empty. |
| Ugt.ObserveAsWritten | bundles/irc-ugt/start.php:15-42 | Silent exactly when the body does not start with `!ugt`. When it answers, it is the plain explanation to the destination; the highlighting branch fails instead. |
| Ugt.Observe | bundles/irc-ugt/start.php:15-42 | Silent exactly when the body does not start with `!ugt`, and it never fails. |
| Ugt.AsWrittenFailsInChannels | bundles/irc-ugt/start.php:36-38 | As written, every `!ugt` in a channel ends in an error. |
| Ugt.BobExample | bundles/irc-ugt/start.php:23-31 | `!ugt bob` highlights bob. |
| Ugt.AsWrittenChannelExample | bundles/irc-ugt/start.php:33-40 | `!ugt bob` in #laravel fails as written, where the corrected listener answers `bob: <explanation>` in the channel. |
| Ugt.CorrectionKeepsPrivateAnswers | bundles/irc-ugt/start.php:33-40 | Wherever the source does not fail, the corrected listener gives the same answer. |
| Ugt.InChannel | bundles/irc-ugt/start.php:33-40 | In a channel the answer highlights the nick there. |
| Ugt.InPrivate | bundles/irc-ugt/start.php:33-40 | Outside a channel the plain explanation goes privately to the highlighted nick. |
| Ugt.NamedNick | bundles/irc-ugt/start.php:26-31 | `!ugt <nick>` highlights that nick as written, without changing its case. |
| Qweb.Greet | bundles/irc-qweb/start.php:16-31 | A greeting exactly when the lower-cased nick starts with guest, laravelnewbie or qwebirc. It goes to the channel, or to `#laravel-bot-test` without one. |
| Qweb.IsDefaultNick | bundles/irc-qweb/config/config.php:8 | A nick starting with `guest` is a default nick, and nothing shorter than five characters is. |
| Qweb.Fill | bundles/irc-qweb/start.php:24-28 | A template without braces is sent as it is. |
| Qweb.ChannelSurvives | bundles/irc-qweb/start.php:25-28 | Replacing `{{nick}}` leaves the `{{channel}}` placeholder and what follows it alone. |
| Qweb.FillNick | bundles/irc-qweb/start.php:25-28 | The first replacement puts in the nick and keeps the channel placeholder. |
| Qweb.FillTemplate | bundles/irc-qweb/start.php:25-28 | Filling a brace-free template puts the nick and the channel in place of their placeholders. |
| Qweb.GreetingText | bundles/irc-qweb/config/config.php:13 | A default nick gets the configured greeting with its nick and the channel filled in, for a nick without braces. Braces are nick characters; a nick holding `{channel}` would have it replaced too, since the placeholders are replaced one after the other. |
| Qweb.PiecesHaveNoBraces | bundles/irc-qweb/config/config.php:13 | The fixed text of the response holds no braces. |
| Qweb.MixedCaseGuest | bundles/irc-qweb/config/config.php:8 | The pattern is matched against the lower-cased nick: `QwebIRC42` is greeted and `PhillSparks` is not. |
| Feeds.Put | bundles/feed-notifier/start.php:40 | Cache::put stores the value under the key until `60 * ttl` seconds from now and keeps every other key. |
| Feeds.Key | bundles/feed-notifier/start.php:33 | The key is `feed-updated ` followed by the feed's name, which can be read back from it. |
| Feeds.Has | bundles/feed-notifier/start.php:35 | A stored key is present until the time it expires and gone from that time on. |
| Feeds.Field | bundles/feed-notifier/start.php:88-89 | The getter's value when the item has it, otherwise "". |
| Feeds.ReplaceAll | bundles/feed-notifier/start.php:91 | With one pair it is a single str_replace. Empty search strings leave the text as it is. |
| Feeds.Render | bundles/feed-notifier/start.php:79-94 | A template without tokens is sent as it is. |
| Feeds.Collect | bundles/feed-notifier/start.php:68-98 | The texts so far are kept, and there are at most three in all. The timestamp never falls below the one so far. Without an item newer than the stored timestamp, no text is added. |
| Feeds.FeedSpec | bundles/feed-notifier/start.php:46-100 | At most three texts and a timestamp that does not go back. A feed without newer items gives no text. |
| Feeds.UpdateSpec | bundles/feed-notifier/start.php:20-125 | At most three messages, all of them NOTICEs, and no key of the cache is lost. |
| Feeds.Tokens | bundles/feed-notifier/start.php:55 | The names of the `(:name)` tokens, left to right; each is non-empty and made of word characters. |
| Feeds.NoTokens | bundles/feed-notifier/start.php:55 | A template without parentheses has no tokens. |
| Feeds.TokenAfter | bundles/feed-notifier/start.php:55 | A token after parenthesis-free text is the first token found. |
| Feeds.TitleAndLinkTokens | bundles/feed-notifier/start.php:55 | `a(:title)b(:link)c` has the tokens title and link, in order. |
| Feeds.ReplaceTitle | bundles/feed-notifier/start.php:91 | Replacing the title token keeps the link token. |
| Feeds.RenderTitleAndLink | bundles/feed-notifier/start.php:79-92 | Rendering `a(:title)b(:link)c` puts the item's title and link in place. |
| Feeds.LinkSurvives | bundles/feed-notifier/start.php:91 | `(:link)` holds no `(:title)`, so the first replacement leaves it. |
| Feeds.Newer | bundles/feed-notifier/start.php:77 | The items newer than the last timestamp, in feed order. |
| Feeds.Rendered | bundles/feed-notifier/start.php:79-94 | One text per item: the template with the item's values. |
| Feeds.Latest | bundles/feed-notifier/start.php:75 | The largest of the starting value and the items' times, which is one of them. |
| Feeds.Examined | bundles/feed-notifier/start.php:68-98 | The number of items the loop looks at, at most all. |
| Feeds.NewerCons | bundles/feed-notifier/start.php:68-98 | The newer items of a longer prefix are those of the shorter one and perhaps the next item. |
| Feeds.RenderedAppend | bundles/feed-notifier/start.php:79-94 | Rendering distributes over concatenation. |
| Feeds.CollectStops | bundles/feed-notifier/start.php:97 | The loop stops at the newer item that fills the third place. |
| Feeds.CollectGoesOn | bundles/feed-notifier/start.php:68-98 | Otherwise the loop goes on with the next item, the maximum time updated. |
| Feeds.CollectIs | bundles/feed-notifier/start.php:68-98 | The item loop collects the texts of the newer items among those it looks at, and the latest time among them. |
| Feeds.ExaminedRoom | bundles/feed-notifier/start.php:97 | The loop collects no more newer items than it has room for. It stops early only when the room is used up, and it reads all items when there are fewer newer ones than the room. |
| Feeds.NewerPrefix | bundles/feed-notifier/start.php:68-98 | The newer items of a prefix are a prefix of all the newer items. |
| Feeds.FeedReport | bundles/feed-notifier/start.php:46-100 | A known feed reports at most three texts, the first of its newer items: all of them when there are fewer than three, and exactly three otherwise, with the timestamp then the latest time among the items examined up to the break. The new timestamp is at least the old one, and is the old one or an item's time. |
| Feeds.Notices | bundles/feed-notifier/start.php:104-107 | One NOTICE per text to the feed's channel, in order. |
| Feeds.UpdateOne | bundles/feed-notifier/start.php:31-116 | For a feed without an entry, the current time is stored and the loop goes on. For a known feed, its new timestamp is stored, and either its notices end the ping or the loop goes on. |
| Feeds.OneFeedPerPing | bundles/feed-notifier/start.php:110-116 | A ping reports at most three notices, all for one feed and to its channel. |
| Feeds.TimestampsNeverDecrease | bundles/feed-notifier/start.php:50-100 | For a positive ttl, a feed's stored timestamp never goes back while its entry lasts. |
| Feeds.KeyInjective | bundles/feed-notifier/start.php:33 | Distinct feed names give distinct cache keys. |
| Feeds.FirstRunIsQuiet | bundles/feed-notifier/start.php:35-41 | With no stored timestamps, a ping reports nothing and stores the current time for every feed. |
| Feeds.StoredStays | bundles/feed-notifier/start.php:31-117 | A cache key that no feed names is left as it is. |
| Feeds.Notifier.constructor | bundles/feed-notifier/start.php:20-29 | The notifier starts from the given cache. |
| Feeds.Notifier.Fill | bundles/feed-notifier/start.php:79-92 | The loop over the tokens builds the template with the item's values in place. |
| Feeds.Notifier.Scan | bundles/feed-notifier/start.php:46-98 | The item loop of a known feed computes its texts and new timestamp as FeedSpec says. |
| Feeds.Notifier.UpdateFeeds | bundles/feed-notifier/start.php:20-125 | update_feeds returns the report and leaves the cache as the specification function says. |
| Feeds.Notifier.Announce | bundles/feed-notifier/start.php:104-107 | One NOTICE per text to the channel, in order. |
| Bundles.EscapeSkips | bundles/irc-bundles/start.php:27 | Text without ampersands passes through the escaping unchanged. |
| Bundles.IsProtected | bundles/irc-bundles/start.php:27 | `amp;` protects an ampersand, and fewer than two characters never do. |
| Bundles.EscapeAmp | bundles/irc-bundles/start.php:27 | Escaping never shortens the text. |
| Bundles.Escaped | bundles/irc-bundles/start.php:27 | Text without ampersands is escaped, and escaped text never ends in an ampersand. |
| Bundles.Announcement | bundles/irc-bundles/start.php:49 | A PRIVMSG to #laravel: `New Bundle: `, the name, a space and the link. |
| Bundles.Cached | bundles/irc-bundles/start.php:23 | A stored check counts until it expires. |
| Bundles.After | bundles/irc-bundles/start.php:23-64 | The date never moves back. A cached check or a failed read keeps the watch as it is. A read caches the new date for ten minutes. |
| Bundles.Pings | bundles/irc-bundles/start.php:19-66 | At most one bundle is announced per ping. Pings whose reads all fail announce nothing and change nothing. |
| Bundles.EscapedAfter | bundles/irc-bundles/start.php:27 | Ampersand-free text in front of escaped text keeps it escaped. |
| Bundles.ProtectionKept | bundles/irc-bundles/start.php:27 | A protected text (`amp;`, `quot;`, `lt;`, `gt;` or one to three digits and `;`) stays protected once escaped. |
| Bundles.NumericKept | bundles/irc-bundles/start.php:27 | One to three digits and a semicolon survive the escaping. |
| Bundles.KeptPrefix | bundles/irc-bundles/start.php:27 | A prefix without ampersands survives the escaping. |
| Bundles.EscapeAmpEscapes | bundles/irc-bundles/start.php:27 | After escaping, every ampersand is followed by a protected text. |
| Bundles.EscapedUnchanged | bundles/irc-bundles/start.php:27 | A text whose ampersands are all protected is left as it is. |
| Bundles.EscapeAmpIdempotent | bundles/irc-bundles/start.php:27 | Escaping twice is escaping once. |
| Bundles.EscapeExample | bundles/irc-bundles/start.php:27 | `a&b` becomes `a&amp;b`; `&lt;` is kept. |
| Bundles.FirstNewer | bundles/irc-bundles/start.php:36-55 | The first item, in feed order, whose date sorts after `$updated` under strcmp. None when there is no such item. |
| Bundles.FirstNewerIs | bundles/irc-bundles/start.php:36-55 | The first newer item is the one before which none is newer. |
| Bundles.Boot | bundles/irc-bundles/start.php:15 | At start-up `$updated` is the cached date, or empty without one. |
| Bundles.Announced | bundles/irc-bundles/start.php:19-66 | Whatever a ping announces is dated after `$updated`. |
| Bundles.PingSpec | bundles/irc-bundles/start.php:19-66 | A ping returns at most one message. |
| Bundles.PingAdvances | bundles/irc-bundles/start.php:47-53 | A ping that announces a bundle moves `$updated` strictly forward to its date. Otherwise `$updated` stays. |
| Bundles.QuietWhileCached | bundles/irc-bundles/start.php:23 | While the check is cached a ping sends nothing and changes nothing. |
| Bundles.CachedAfterRead | bundles/irc-bundles/start.php:57-58 | A feed that was read stores the new date for ten minutes, and the check stays cached throughout them. |
| Bundles.PingsIncrease | bundles/irc-bundles/start.php:19-66 | Over any sequence of pings the announced dates strictly increase. All are after the starting date and none after the final one. |
| Bundles.NeverTwice | bundles/irc-bundles/start.php:19-66 | No bundle date is announced twice. |
| Bundles.Watcher.constructor | bundles/irc-bundles/start.php:15 | The watcher starts from the cached date. |
| Bundles.Watcher.Ping | bundles/irc-bundles/start.php:19-66 | The ping listener returns PingSpec's messages and moves to PingSpec's next state. |
| Bundles.Watcher.Reset | bundles/irc-bundles/start.php:69-72 | `bundle-reset` forgets the cache entry and keeps `$updated`. |
| Bundles.Help | bundles/irc-bundles/start.php:75-79 | `help`: the bundle watcher's explanation, privately to whoever asked. |

## Left out

- The sockets, the console and the log file are sequences or strings. Connecting, closing, `ob_flush` and `File::append`'s file system are not modelled. Logger's paths leave out `path('storage')`; the time stamp of a log line is a parameter. The `CONNECT` line the constructor prints (client.php:37-39) and the `quit` listener's `echo 'quit'` (irc/start.php:36) are console output and are not modelled.
- Event registration (`Message::listen`, `Command::register`, message.php:1411-1414, command.php:84-87) is not modelled. The dispatcher is an `Events` parameter. CoreCommands.Listeners models only the listeners of irc/start.php. Both `help` listeners (core and bundles) are kept as separate functions.
- A listener's exception ends the process; no code catches it (client.php:146-192).
- The PASS step of login (client.php:65-69) is a TODO, commented out in the source, and is not modelled. `Message::pass` itself is.
- `__callStatic` (message.php:1620-1624) forwards unknown helpers to `make`. The handlers only call defined helpers, so it is not modelled.
- The debug listener of irc/start.php:83-108 only prints to the console, and `debug` is off in the configuration, so it is not modelled.
- Messages.IsNumeric: PHP's `is_numeric` also accepts signs, decimals, exponents and leading blanks. The model accepts strings of digits only, which is every numeric the IRC protocol defines.
- Clients.IsCode: PHP compares the command with an int constant (`== Message::RPL_ENDOFMOTD`, `== Message::RPL_WHOISUSER`, client.php:77 and 155) numerically, so "+376", "376.0", "3.76e2", a command with leading blanks and, under PHP 5, "376abc" also equal 376. The model reduces this leading-numeric-string comparison to commands made of digits only, which are all that IRC servers send as numerics.
- Loose comparisons (`==`, `in_array`) on strings that both look numeric compare as numbers in PHP ("10" == "1e1"). The model compares strings exactly; nicks and channels do not start with digits.
- PCRE's `.` stops at a line feed and `$` matches before a final one. Socket lines never hold a line feed after the CR/LF strip, so the model treats them as plain text. The `/u` flag and UTF-8 are not modelled: strings are sequences of characters.
- Clients.WhoisSpec: a 311 reply with missing parameters reads null in PHP. The model reads the nick as "" and a missing user or host as absent.
- Clients.PrivateSpec: the client runs private messages through the corrected Command::make of Findings row 1 (Commands.FromMessage), which reads the command from the message's text. Command::make as written (client.php:182, command.php:48) reads the missing `body`, so every command has the empty name. Clients.PrivateSpecAsWritten models that branch as written. Clients.PrivateAsWrittenOnlyDefault shows that, when no listener is registered for the empty name, an allowed private message then only ever gets the default notice. Clients.ReactSpec, Clients.Client.React, Clients.Client.AnswerPrivate and the main loop above them use the corrected version.
- The client keeps its own identity with the corrected Senders.MakeUser. The client only reads the identity's nick, which both versions of makeUser set the same way.
- Feeds: SimplePie's fetching and parsing are not modelled. A feed's items are given with their times as integers. Items without a date, `html_entity_decode` and `method_exists` lookups other than a field map are not modelled. A missing field renders as "".
- Bundles: `file_get_contents`, SimpleXML and its namespaces are not modelled. The fetched document is a parameter: the list of bundles, or None when reading or parsing threw.
- Laravel Cache is a map with expiry times; `Cache::forget` removes the key. Other cache drivers are not modelled.
- Bundles outside the core (irc-greeter, irc-docsearch, help, irc-tables, the migrations and the artisan task) are not modelled.
- Sender constants and numerics other than those the client uses are not modelled.
- Ugt.ObserveAsWritten: the failure of interpolating a Message object without `__toString` is modelled as a `Fails` outcome, not as PHP's error text.

## Findings

| source | as written | input that shows it | evidently intended | confidence | as-written member | corrected member |
|---|---|---|---|---|---|---|
| bundles/irc/lib/command.php:48 | the command is split from `$message->body`, a property a Message does not have, so the body is null | any private message, e.g. `join #laravel` from an allowed nick | split the text of the private message, its last parameter | high, not executed | Commands.AsWrittenIgnoresMessage | Commands.FromMessage with Commands.ParseOfWords |
| bundles/irc/lib/sender.php:122 | makeUser writes `nick@user!host` | nick `bot`, user `u`, host `h`: the text `bot@u!h` parses back with user "" and host `u!h` | `nick!user@host` as in the prefix grammar | high, not executed | Senders.MakeUserAsWrittenMisreads | Senders.MakeUserRoundTrip |
| bundles/irc-ugt/start.php:38 | the channel greeting interpolates `$message`, the Message object | `!ugt bob` in #laravel | the UGT explanation after the nick | high, not executed | Ugt.AsWrittenChannelExample | Ugt.InChannel |
| bundles/irc/config/client.php:81 | `$file == server` compares instead of assigning | any PING from the server | log messages without a target in the server's file | high, not executed | Logger.PingAsWritten | Logger.UntargetedToServer |
