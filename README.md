# 123Links side panel: link classifier and link list, in Dafny

123Links is a Chrome extension with a side panel. The panel holds a short
list of links and to-do items. Items come from two places. The user types
them in, or a context-menu click sends the selected text, the clicked link
or the page address. This project models two parts of it and proves
properties of them:

- **The link classifier** (`src/urlValidator.js`). These are the static
  methods of `URLValidator`, modelled as pure functions in module
  `UrlValidator` (`url_validator.dfy`).
  - The two regular expressions of `isValidDomain` and `isValidIP` are
    modelled exactly.
  - `new URL(s)` is the WHATWG URL parser. It is a parameter `parse`, so
    every result about the classifier holds for any parser. A few lemmas
    also assume one true fact about the real parser: without a base URL,
    a string with no `:` never parses (`NeedsScheme`).
- **The list state of the side panel** (`src/sidepanel.js`).
  - The closure variables `linkListArray` and `maxTasks` are the fields
    of class `LinkList.LinkListStore` (`link_list.dfy`).
  - The store has one method per event handler: add, delete, toggle,
    max settings and context-menu capture. Two ghost fields record what
    the handlers last wrote to `chrome.storage.sync`.
  - `escapeHtml` is a pure function in module `HtmlEscape`
    (`html_escape.dfy`).
- **Supporting string functions** (`js_strings.dfy`). Most are the parts
  of the JavaScript string library the code relies on:
  - `trim`, over the exact ECMAScript whitespace set;
  - dotted pieces, which the model uses to read the two regular
    expressions (the code itself never splits or joins);
  - `startsWith` and `includes`;
  - UTF-16 `length`;
  - `parseInt`.

Behaviour the model keeps exactly as the code has it, rather than as the
design intends:

- The last label of a domain may be all digits.
- Every dotted quad is therefore a domain. The `ip` rule of
  `detectLinkType` can never fire; `DetectNeverIp` proves this.
- The add guard compares the length with `==`. Capture ignores the
  maximum, so once captures push the list past the maximum, manual adds
  are accepted again.
- Manual add always stores an empty link.
- Delete removes every match and always writes the list to storage.
- Toggle touches only the first match. With no match it throws, which
  the model states as `thrown` with nothing changed.
- A smaller maximum cuts the shown list but stores only the new maximum.

## Model

| member | source | states |
|---|---|---|
| JsStrings.Trim | src/urlValidator.js:86 | Neither end of the trimmed string is ECMAScript whitespace. |
| JsStrings.TrimIsMiddle | src/urlValidator.js:86 | `trim` returns a contiguous middle part of the input. Only whitespace is cut from either end, and neither end of the result is whitespace. |
| JsStrings.Utf16Length | src/urlValidator.js:145 | The `length` of a hostname counts UTF-16 code units: at least one and at most two per character. |
| JsStrings.ParseInt | src/sidepanel.js:161 | `parseInt` yields a number only when the string holds a decimal digit. Otherwise it is `NaN` (`None`). |
| JsStrings.ParseIntOfNumeral | src/sidepanel.js:161 | `parseInt` of a plain decimal numeral such as a `data-max` value is that numeral's value. |
| UrlValidator.IsValidURL | src/urlValidator.js:11-18 | True exactly when `new URL(s)` does not throw. |
| UrlValidator.IsValidURLWithProtocol | src/urlValidator.js:41-48 | True exactly when the string parses and its protocol is `http:`, `https:`, `ftp:` or `ftps:`. In particular it implies `isValidURL`. |
| UrlValidator.LabelPatternMeaning | src/urlValidator.js:77 | One label of the domain pattern is 1 to 63 ASCII letters, digits or hyphens, in either case, and does not start or end with a hyphen. |
| UrlValidator.IsValidDomain | src/urlValidator.js:75-79 | Every accepted domain contains a dot, since the pattern needs at least two labels. Its exact language is stated by `LabelPatternMeaning` and `DomainIsJoinOfLabels`. |
| UrlValidator.DomainIsJoinOfLabels | src/urlValidator.js:75-79 | `isValidDomain` accepts exactly the strings that are two or more such labels joined by dots. The last label may be all digits. |
| UrlValidator.OctetPatternMeaning | src/urlValidator.js:121 | One group of the IP pattern is 1 to 3 decimal digits of value at most 255. Leading zeros are allowed. |
| UrlValidator.IsValidIP | src/urlValidator.js:119-123 | Every accepted address contains a dot. Its exact language is stated by `OctetPatternMeaning` and `IpIsJoinOfGroups`. |
| UrlValidator.IpIsJoinOfGroups | src/urlValidator.js:119-123 | `isValidIP` accepts exactly the strings that are four such groups joined by dots. |
| UrlValidator.IpIsDomain | src/urlValidator.js:119-123 | Every string `isValidIP` accepts is also accepted by `isValidDomain`. |
| UrlValidator.IsValidURLFlexible | src/urlValidator.js:54-69 | A valid result's URL parses and is `s` or `"https://" + s`. An invalid result carries `s`. The result is valid exactly when `s` parses, or `s` has no `http(s)://` prefix (in any case) and `"https://" + s` parses. A string with that prefix that does not parse gives `{false, s}`. |
| UrlValidator.TypeNameInjective | src/urlValidator.js:89-113 | The five `type` strings are distinct, so each names exactly one `LinkType`. |
| UrlValidator.DetectLinkType | src/urlValidator.js:85-114 | The rules run on the trimmed input, first match wins, and each type fires exactly when its own test passes and every earlier test fails. `full_url`: the trimmed input parses, and the value is the trimmed input. `domain`: it does not parse but is a valid domain, and the value is `"https://" + trimmed`. `url_without_protocol`: it fails the parse, domain and IP tests and `isValidURLFlexible` accepts it; the value is then `"https://" + trimmed`, the input has no `http(s)://` prefix, and the value parses. `not_a_link`: every test fails, `isValid` is false exactly then, and the value is the trimmed input. An `ip` result would need an IP that is not a domain. |
| UrlValidator.DetectNeverIp | src/urlValidator.js:94-101 | Whatever the parser, `detectLinkType` never returns type `ip`: the domain rule before it accepts every dotted quad. |
| UrlValidator.DetectDomain | src/urlValidator.js:89-96 | With a parser that needs a scheme, a valid domain is detected as `{domain, true, "https://" + domain}`. |
| UrlValidator.DetectDottedQuad | src/urlValidator.js:94-101 | With such a parser, a dotted quad is detected as `{domain, true, "https://" + quad}`. |
| UrlValidator.ValidateURLSafely | src/urlValidator.js:129-159 | Checks run in a fixed order, each error arising exactly when the earlier checks pass and its own fails: the parse error with the parser's message, then `Invalid protocol`, then `Suspicious hostname` (`..` anywhere or a leading `.`), then `Hostname too long` (more than 253 UTF-16 units). Success returns the parsed href, protocol, hostname and pathname, and all checks hold for it. |
| UrlValidator.ErrorMessageDistinct | src/urlValidator.js:135-157 | A parse error reports the parser's own message. The three later checks report three distinct fixed messages. |
| UrlValidator.ValidateMultipleURLs | src/urlValidator.js:165-170 | Keeps length and order: entry `i` is `urls[i]` together with the fields of `detectLinkType(urls[i])`. |
| HtmlEscape.ReplaceAll | src/sidepanel.js:242-246 | After a global replace, the character is gone unless the replacement contains it. A string without the character is unchanged, and a non-empty replacement never shortens the string. |
| HtmlEscape.EscapeHtml | src/sidepanel.js:240-247 | The escaped text is never shorter than the input and holds no `'`. A text without any of `& < > " '` comes back unchanged. |
| HtmlEscape.EscapeHtmlAppend | src/sidepanel.js:240-247 | `escapeHtml` distributes over concatenation. |
| HtmlEscape.EscapeHtmlOfChar | src/sidepanel.js:240-247 | On a single character, the chain of five replaces yields exactly that character's entity, or the character itself. |
| HtmlEscape.EscapeHtmlIsPerCharacter | src/sidepanel.js:240-247 | Because `&` is replaced first, the chained replaces equal a single per-character substitution. |
| HtmlEscape.EscapeHtmlHasNoMarkup | src/sidepanel.js:240-247 | The output contains no raw `<`, `>`, `"` or `'`. |
| HtmlEscape.EscapeHtmlIdentity | src/sidepanel.js:240-247 | `escapeHtml` returns its input unchanged exactly when the input contains none of `& < > " '`. |
| HtmlEscape.UnescapeEscapeHtml | src/sidepanel.js:240-247 | Decoding the five entities recovers the original text, so escaping loses nothing. |
| HtmlEscape.EscapeHtmlInjective | src/sidepanel.js:240-247 | Different texts never escape to the same task string. |
| LinkList.RemoveTask | src/sidepanel.js:125-127 | After the `filter`, no item has task `key`. Every other item keeps its number of occurrences. An unknown key leaves the list unchanged. |
| LinkList.RemoveTaskIsSubsequence | src/sidepanel.js:125-127 | The surviving items keep their order. |
| LinkList.RemoveTaskAppend | src/sidepanel.js:125-127 | Filtering distributes over concatenation. |
| LinkList.RemoveManuallyAdded | src/sidepanel.js:98 | Deleting a fresh manual item by its stored task text gives back the list from before the add. |
| LinkList.RemoveByUnescapedText | src/sidepanel.js:126 | Deleting by the raw text, when that text contains one of `& < > " '`, leaves the item stored for that text in place. |
| LinkList.FindTask | src/sidepanel.js:138-141 | `find` yields the first index whose task is `key`. It yields none exactly when no item has that task. |
| LinkList.FindTaskOfAppended | src/sidepanel.js:138-141 | `find` locates an appended item at its own index when no earlier item has its task. |
| LinkList.ShownTextMissesMarkedUpItem | src/sidepanel.js:126 | For an entry added since the panel loaded, whose text holds one of `& < > " '`, the key read back from the rendered entry is the unescaped text. Delete by that key keeps the item, and `find` returns nothing, so toggle throws. |
| LinkList.ReloadedEntryFindsItem | src/sidepanel.js:25 | An entry rendered at load escapes its stored task once more, so the key read back from it is the stored task, and `find` locates the first item with that task. |
| LinkList.StoredTaskKeyFindsItem | src/sidepanel.js:125-141 | Keyed by the stored task instead of the rendered text, delete removes exactly a fresh item, whatever its text, and `find` locates it. |
| LinkList.NextMax | src/sidepanel.js:168-180 | `"3"`, `"5"` and `"7"` set that maximum. Any other value keeps the current one. |
| LinkList.CaptureItem | src/sidepanel.js:195-210 | The captured item is unchecked and follows this precedence. With a selection, the text is the escaped trimmed selection, and the link is the selection if it parses, else the page URL. Otherwise, with a link URL, the text is the escaped link and the link is the link URL. Otherwise both come from the page URL. |
| LinkList.CaptureItemFacts | src/sidepanel.js:195-226 | A captured task holds no raw `<`, `>`, `"` or `'`. Its link is the page URL, the link URL, or a string that parses. |
| LinkList.LinkListStore.constructor | src/sidepanel.js:4-5 | The state starts with no items and a maximum of 3. |
| LinkList.LinkListStore.AddManual | src/sidepanel.js:56-110 | The capacity check runs before the blank check. A full list reports full with nothing changed; so does a blank input, reported as empty. Otherwise exactly one item `{escapeHtml(trimmed), "", false}` is appended and the list is stored. `length <= maxTasks` is preserved. |
| LinkList.LinkListStore.Delete | src/sidepanel.js:122-135 | The list becomes the filtered list and is stored whether or not anything was removed. `length <= maxTasks` is preserved. |
| LinkList.LinkListStore.Toggle | src/sidepanel.js:136-150 | Only the first item with task `key` gets the new `isChecked`, and the list is stored. With no such item, the handler throws and nothing changes. |
| LinkList.LinkListStore.SelectMax | src/sidepanel.js:158-191 | When `parseInt(data-max)` equals the current maximum, nothing changes. Otherwise the maximum follows the `switch` and is stored, the list is cut to its first `maxTasks` items, and the stored list is not touched. |
| LinkList.LinkListStore.Capture | src/sidepanel.js:192-237 | Whatever the length of the list, exactly the captured item is appended and the list is stored. |
| LinkList.ManualAddsStopAtMax | src/sidepanel.js:56-61 | From the initial state, three non-blank adds succeed and a fourth is refused, leaving three items. |
| LinkList.CaptureReopensManualAdd | src/sidepanel.js:58 | Four captures take the list past the maximum of 3. Because the guard is `==`, a manual add is then accepted, giving five items. |
| LinkList.TruncationIsNotStored | src/sidepanel.js:181-189 | After five items under a maximum of 5, selecting 3 shows three items, while the stored list still holds five. |

## Left out

- `src/background.js`: Chrome event wiring (side-panel setup, context-menu registration, message forwarding). It contains no logic of its own.
- The capture handler's acknowledgement `sendResponse({status: "Message received"})` (`src/sidepanel.js:236`): it is a reply to the sender and does not change the list.
- The WHATWG URL parser behind `new URL`: it is a parameter of every classifier function. Only `NeedsScheme` is assumed about it, and only by the lemmas that name it.
- The text of the parser's error message: it is carried through `validateURLSafely` as given, not computed.
- `isValidURLRegex` (`src/urlValidator.js:24-35`): nothing calls it.
- The DOM work of every handler: creating list entries, `innerHTML` templates, CSS classes, animations, `alert`, `console.log`.
  - The delete and toggle keys, which the code reads from the entry's `textContent`, arrive as the parameter `key`.
  - The alerts are the outcomes `ListFull` and `EmptyInput`.
- The `new URL(textAdded)` probe in the add handler (`src/sidepanel.js:67-73`): its result only chooses the markup template, never the stored item.
- Loading from `chrome.storage.sync` and the `JSON` encoding (`src/sidepanel.js:10-54`).
  - The model starts from empty storage: no items and a maximum of 3.
  - Storage writes are modelled as ghost snapshots, without their asynchrony.
- An absent `selectionText` or `linkUrl` in a capture message is modelled as the empty string. Both are falsy in the handler's tests.
- A capture message is assumed to carry a `pageUrl`. The menu is registered for selection, link and page clicks (`src/background.js:26`), all of which happen on a page. Without one, `escapeHtml(undefined)` at `src/sidepanel.js:209` would throw, which the model does not express.
- The max-settings handler's `if (target.dataset)` test is always true for an element. An absent `data-max` behaves like any value outside "3", "5" and "7", so it is not modelled separately.
- Objects and aliasing: items are values. The in-place write `todoChecked.isChecked = …` is a sequence update at the found index, which is equivalent because the list holds no shared objects.
- Strings are sequences of Unicode scalar values. UTF-16 matters only for `length`, which `Utf16Length` models. Unpaired surrogates cannot be expressed.

## Findings

| source | as written | input that shows it | evidently intended | confidence | as-written member | corrected member |
|---|---|---|---|---|---|---|
| src/sidepanel.js:126 | Delete and toggle look items up by the rendered `textContent`. For an entry added or captured since the panel loaded, that text is the original input, not the escaped stored task. Entries rendered at load (line 25) escape the task once more and are found (`LinkList.ReloadedEntryFindsItem`). | In one session, add the text `a&b`: the stored task is `a&amp;b`, the rendered text is `a&b`, so delete leaves the item and toggle throws at line 142. | The entry is keyed by its stored task (or its index), so delete removes the item and toggle finds it for every entry. | high; not executed | LinkList.ShownTextMissesMarkedUpItem | LinkList.StoredTaskKeyFindsItem |
