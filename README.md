# A model of the portfolio server's component resolver and request switch

The repository is a small Node.js HTTP server (`server.js`) that serves a
handful of French HTML pages and their style sheets. This project models its
two parts:

- **`resolveComponent`** (`server.js:7-21`) finds every unescaped
  `{{name}}` token of a page. A token is unescaped when it is preceded by an
  even run of backslashes, none included. The function reads
  `./components/<name>.html` for each token, substitutes the content, and
  repeats on the rewritten text until no token is left. It rejects as soon as
  a component file cannot be read. The source substitutes with
  `string.replace(match, data)`, which replaces the first literal occurrence
  of the match text. That occurrence can be an escaped copy earlier in the
  page (see Findings). The model has both versions:
  - `StepAsWritten` / `ResolvedAsWritten` replace the first literal
    occurrence, as the source does.
  - `StepOf` / `Resolved` replace the matched token, backslash run included,
    where it was found. This corrected version is the one the rest of the
    model uses.
- **The request switch** (`server.js:23-313`) matches the URL by exact string
  equality, then checks the method:
  - An unknown URL is answered 404 without reading a file.
  - A known URL with any method other than `GET` is answered 501.
  - A `GET` reads the route's file. A failed read or a failed resolution is
    answered 500.
  - Otherwise the answer is 200 with `content-type`, `content-length` and,
    for pages, `content-language: fr` and the content-security-policy.

Modules:

- `Wrappers`: `Option` and `Result`.
- `Scanner`: the regular expression `/(?<!\\)(\\\\)*{{[a-zA-Z]*}}/g`, scanned
  globally. It has two parts:
  - `TokenAt` is the attempt at one position and `Tokens` is the global scan.
    `IsToken` is an independent declarative definition of a match, and
    `TokensExact` proves that the scan finds exactly those matches, left to
    right and without overlap.
  - `NameOf` is the component name, i.e. the match with every backslash and
    brace removed.
- `Resolver`: the resolution. It has three layers:
  - `StepOf` is one call of `resolveComponent` up to its recursive call.
    `Resolved` repeats it, bounded by fuel.
  - `ResolveComponent` is the imperative loop, proved equal to `Resolved`.
    `ReadComponents` is the `forEach` over the matches.
  - `StepAsWritten` and `ResolvedAsWritten` do the substitution the way the
    source writes it (see Findings).
- `Findings`: a concrete page on which the two substitutions differ.
- `Server`: the route table, the switch, the response headers and the handler.

The file system is a `map<string, string>` from path to content. A path that
is not a key is a `readFile` error.

## Model

| member | source | states |
|---|---|---|
| Scanner.Tokens | server.js:9 | Every match of the global scan lies inside the text and is non-empty. Exactness is `TokensExact`. |
| Scanner.TokenAt | server.js:9 | An attempt at position p that succeeds yields a match starting at p that satisfies the declarative token definition: not preceded by a backslash, an even backslash run, `{{`, letters, `}}`. |
| Scanner.TokensExact | server.js:9 | The global scan returns exactly the tokens of the text, in left-to-right order and without overlap. |
| Scanner.FirstTokenLeftmost | server.js:9 | When the text has a token, the first match is the leftmost token. |
| Scanner.OddRunEscapes | server.js:9 | A `{{letters}}` preceded by an odd run of backslashes is never matched. |
| Scanner.EvenRunMatched | server.js:9 | A `{{letters}}` preceded by an even run of backslashes (possibly empty) is matched, and the match includes the whole run. |
| Scanner.AllEscapedNoMatch | server.js:9-11 | When every `{{` of a text is escaped by an odd backslash run, the text has no match. |
| Scanner.StripName | server.js:12 | Removing backslashes and braces never lengthens the text and leaves none of them. |
| Scanner.NameOf | server.js:12 | The name taken from a match is no longer than the match and contains no backslash or brace. |
| Scanner.NameOfToken | server.js:12 | The name taken from a match (backslashes and braces removed) is exactly the text between its braces, so it contains only letters. |
| Resolver.ComponentPath | server.js:12 | The path of a component is its name wrapped in `./components/` and `.html`, so the name can be read back from the path. |
| Resolver.FirstMissing | server.js:12-13 | No component is missing iff every matched component path is readable. A reported path is unreadable and belongs to one of the matches. |
| Resolver.ReadComponents | server.js:12-13 | The loop over the matches reports the first unreadable component path in match order, or none. |
| Resolver.SubstituteInPlace | server.js:14 | The corrected substitution keeps the text before the match, puts the content where the match was, and keeps the text after it. |
| Resolver.StepOf | server.js:9-14 | One call is done iff the text has no match. A failing call names an unreadable path. |
| Resolver.Resolved | server.js:7-21 | A successful resolution has no match left. A missing-file error names an unreadable path. |
| Resolver.StepDone | server.js:9-11 | A call finishes at once iff the text has no unescaped token. |
| Resolver.StepFailed | server.js:12-13 | A failing call fails on an unreadable path of the form `./components/<letters>.html`. |
| Resolver.MissingComponentFails | server.js:12-13 | A token whose component file is unreadable makes the call fail. |
| Resolver.StepRewrites | server.js:14 | When every component can be read, a call replaces the leftmost token, backslash run included, by its file's content and leaves the text before and after it unchanged. |
| Resolver.NoTokenUnchanged | server.js:9-11 | A text without an unescaped token resolves to itself. |
| Resolver.ResolvedHasNoToken | server.js:11-17 | A successful resolution leaves no unescaped token in the result. |
| Resolver.ResolutionFailsOnMissing | server.js:13 | A token whose component is unreadable makes the whole resolution fail with a missing-file error. |
| Resolver.FailureIsMissingComponent | server.js:12-13 | A missing-file failure names an unreadable path `./components/<letters>.html`. |
| Resolver.FuelIrrelevant | server.js:7-21 | Once a resolution does not run out of fuel, more fuel gives the same answer. |
| Resolver.ResolveOnce | server.js:9-14 | The imperative body of one call computes the same step as `StepOf`: done, failed on a path, or rewritten. |
| Resolver.ResolveComponent | server.js:7-21 | The loop of calls computes `Resolved` for every input and fuel. |
| Resolver.IndexOf | server.js:14 | Returns the first position at or after `from` where the pattern occurs, or none if it occurs nowhere there (the string-pattern search of `replace`). |
| Resolver.ReplaceFirstSpec | server.js:14 | `replace` with a string pattern leaves a text without an occurrence unchanged, and otherwise replaces the occurrence that has no other one before it. |
| Resolver.StepAsWritten | server.js:9-14 | The as-written call takes the same kind of step as the corrected one (done, failed on the same path, or rewritten). Only the rewritten text can differ. |
| Resolver.ResolvedAsWritten | server.js:7-21 | A successful as-written resolution has no match left. A missing-file error names an unreadable path. |
| Resolver.AsWrittenAgreesWhenFirst | server.js:14 | When the first literal occurrence of the match text is the match itself, the as-written substitution and the in-place one give the same step. |
| Findings.AsWrittenRewritesEscapedToken | server.js:14 | As written, `\{{a}}{{a}}` with `a` = `X` resolves to `\XX`. With the match replaced in place it resolves to `\{{a}}X`. |
| Server.Route | server.js:24-310 | A URL routes to a page iff it is one of the six page URLs, and to a style sheet iff it is one of the seven style URLs. |
| Server.RootRoute | server.js:26-29 | The root URL `/` reads `./pages/index.html` as a page. |
| Server.PageConvention | server.js:51-154 | Every other page URL `/<name>` reads `./pages/<name>.html`. |
| Server.StyleConvention | server.js:177-294 | Every style URL reads the file named by `.` followed by the URL. |
| Server.Dispatch | server.js:24-312 | 404 iff the URL is unknown. 501 iff the URL is known and the method is not `GET`. Otherwise the file is served by `GET` and its kind comes from the route table. |
| Server.ExactUrlMatch | server.js:24-312 | URLs are compared exactly: a trailing slash, a query string or `/index.html` is unknown, and only the upper-case `GET` is accepted. |
| Server.Utf8Length | server.js:36 | The UTF-8 length (`Buffer.from(str).length`) of a text is between one and four bytes per character. |
| Server.Utf8LengthAscii | server.js:36 | The UTF-8 length equals the character count iff the text is ASCII. |
| Server.Utf8LengthConcat | server.js:36 | The UTF-8 length of a concatenation is the sum of the two lengths. |
| Server.SubstitutedLength | server.js:14 | One substitution changes the page's byte length by the component's bytes minus the token's bytes. |
| Server.Respond | server.js:29-188 | The page callback (server.js:29-43) and the style-sheet callback (server.js:180-188): 200 iff the content was obtained, else 500 with no headers and an empty body. On 200, the body is the content and the first content-length header equals its UTF-8 byte length. Pages carry exactly `text/html`, the length, `fr` and the policy, in that order. Style sheets carry exactly `text/css` and the length. For an ASCII body the declared length is the character count. |
| Server.Handle | server.js:23-313 | Unknown URL → 404, no read. Known URL with another method → 501. Unreadable file → 500. Otherwise a style sheet is sent as read, and a page is sent resolved or answered 500. Every 200 declares its body's UTF-8 length, and every page 200 has no unescaped token left. |

## Left out

- The concurrency of `resolveComponent` is not modelled. In the source, every match's `readFile` callback starts its own recursive resolution on the shared `string` variable. The promise resolves with the answer of the last match's callback. That callback replaces its own match in whatever text it sees at that moment. The model instead reads the recursion sequentially: every match is looked up, then the leftmost one is replaced and the new text resolved. The two can differ even when callback order does not matter. Take `{{a}}{{b}}` with `a` = `\` and `b` = `B`: the source's last callback gives `\B` in either order, while the model gives `\{{b}}`.
- Among several unreadable components the model reports the first in match order. The source rejects with whichever `readFile` error arrives first.
- Resolver.Resolved: unbounded recursion is replaced by a fuel bound. A self-including component never finishes in the source and the request is never answered. In the model it ends in `OutOfFuel`, and `Server.Handle` answers such a page with 500.
- Server.Handle: pages are served through the corrected substitution (`Resolved`), not the as-written one (`ResolvedAsWritten`). On `\{{a}}{{a}}` with `a` = `X`, the handler sends `\{{a}}X` where the source sends `\XX`.
- The special `$` patterns of `String.prototype.replace` (`$&`, `$$`, and so on) inside component content are not interpreted. Content is inserted literally.
- Files are modelled as their decoded text. The `Buffer` to string conversion (`data.toString()` and the implicit coercion in `replace`) and invalid UTF-8 are not modelled. A style sheet's `content-length` (`data.length`) is therefore the UTF-8 length of its text.
- The HTTP server itself is not modelled: `createServer`, `listen` and the port, `writeHead`/`end` as I/O, and the `console.log` lines.

## Findings

| source | as written | input that shows it | evidently intended | confidence | as-written member | corrected member |
|---|---|---|---|---|---|---|
| server.js:14 | `string.replace(match, data)` with a string pattern replaces the first literal occurrence of the match text, which can be an escaped copy earlier in the page | page `\{{a}}{{a}}` with `./components/a.html` = `X` resolves to `\XX` | the matched (unescaped) token is replaced where it was found, giving `\{{a}}X` | not executed | Findings.AsWrittenRewritesEscapedToken | Resolver.StepRewrites |
