# HpiLibrary, modelled in Dafny

HpiLibrary is a Robot Framework keyword library that drives hardware platform
management sessions (the HPI protocol) from test scripts. This project models
its core: the symbolic-name resolver, the per-connection selection store and the
keyword object's connection and selection state.

- **Name resolver** (`utils.dfy`, `mapping.dfy`, with `pyint.dfy`, `normalizing.dfy`,
  `chars.dfy`). `find_attribute` looks up a token in the protocol's constant module.
  - The module is a `SymbolTable`, a sequence of (name, value) symbols in `dir()` order.
  - A symbol matches when its normalized name equals the normalized prefix + token.
    Normalization is the test runner's `normalize(ignore='_')`: whitespace and
    underscores are dropped and letters are lower-cased.
  - With no match, the token is read as a Python 2 `int(s, 0)` literal:
    surrounding whitespace, a sign, `0x`/`0o`/`0b` prefixes, and a leading zero
    meaning octal.
  - If that fails too, the call fails with an error naming the token.
  - The nine `find_*` wrappers fix the prefix. Because the prefixes are nested, the
    families leak into each other, and lemmas state exactly where.
- **Per-connection storage** (`utils.dfy`). `PerConnectionStorage` is a class whose
  `storage` map gives each connection its own `Scope` object. A scope is a class
  holding a string-keyed map.
  - `Cp` is the `_cp` property. It fails when the active-connection attribute is
    missing or None, and creates a scope only on first use.
  - `Valid` says no two connections share a scope. `View` is the contents of all
    scopes, by connection.
- **Keyword object** (`hpi_library.dfy`, with `connection_cache.dfy`, `pyhpi.dfy`,
  `selections.dfy`). `Library` has the fields `activeSession`, `activeDevice`, a
  connection cache and the selection store.
  - The base class `PerConnectionStorage` becomes the field `store`. The
    `_active_session` attribute is what `Cp` is keyed by.
  - Every keyword is a method. Its `ensures` gives its outcome (`Pass`, or `Fail`
    with the exception's cause), or its result. It also gives the new state of the
    store, as a map of maps, in terms of the ghost functions `Selected`, `Touched`
    and `Written`.
  - The logic inside the keywords lives in `Selections` as functions on values:
    - the one resource of an entity path;
    - the first matching record or parameter;
    - the `name=value` split;
    - the event assertions.
  - The methods are proved to compute those functions, and lemmas state what the
    functions mean.
- **Collaborators**. The HPI client (`Pyhpi.Session`: resources, an event queue, an
  open flag, the test starts sent) and the test runner's connection cache
  (`ConnectionCaching.ConnectionCache`) are reduced to the behaviour the library
  relies on.
  - Cache indices count from 1 and `current_index` is readable.
  - `close_all` closes every session, resets the numbering and returns None.

Two client methods with no `ensures` check whole scenarios by assertions:
- `HpiLibrary.NumberingScenario`: opening three connections gives indices 1, 2 and 3.
  Switching to an alias returns the previous index. After closing all, the next
  open gives 1 again.
- `HpiLibrary.ScopeScenario`: a selection made on the last-opened session can still
  be read after switching to another connection.

A third, `Utils.ScopesAreSeparate`, shows that two connections get separate scopes.

Three consequences of the code are modelled as written:
- `switch_hpi_connection` writes `_active_device`, not `_active_session`
  (`src/HpiLibrary/__init__.py:93`). The keywords therefore keep using the scope
  and session of the connection opened last, whatever was switched to.
- `start_test` splits each token at its first `=` (`src/HpiLibrary/__init__.py:470`),
  so `a=b=c` gives `a` the value `b=c`.
- The selection scopes are never cleared, so they outlive `close_all`. The next
  session gets a fresh scope of its own, because scopes are keyed by session
  identity.

## Model

| member | source | states |
|---|---|---|
| Chars.Lower | src/HpiLibrary/utils.py:6-8 | ASCII lower-casing leaves no upper-case letter and keeps spaces, underscores and letters apart from everything else |
| Chars.Upper | src/HpiLibrary/utils.py:76 | ASCII upper-casing leaves no lower-case letter and keeps spaces, underscores and letters apart from everything else |
| Chars.LowerUpper | src/HpiLibrary/utils.py:76 | lowering forgets only the case: lower(upper(c)) is lower(c), and upper(lower(c)) is upper(c) |
| Chars.LowerCase | src/HpiLibrary/utils.py:6-8 | `str.lower()` keeps the length and lowers every character in place |
| Chars.UpperCase | src/HpiLibrary/utils.py:76 | `str.upper()` keeps the length and raises every character in place |
| Chars.UpperOfLower | src/HpiLibrary/utils.py:76 | upper-casing a lower-cased string gives the upper-cased original |
| Normalizing.Normalize | src/HpiLibrary/utils.py:6-8 | the normalized name is no longer than the name and holds no whitespace, underscore or upper-case letter |
| Normalizing.NormalizeNormal | src/HpiLibrary/utils.py:6-8 | a string in normal form is kept as it is; with NormalizeConcat, NormalizeIgnores and NormalizeLowerCase this fixes normalization completely: every other character is kept, lowered, in order |
| Normalizing.NormalizeConcat | src/HpiLibrary/utils.py:6-8 | normalizing a concatenation is concatenating the normalized parts, so the prefix and the token are normalized independently |
| Normalizing.NormalizeIdempotent | src/HpiLibrary/utils.py:6-8 | normalizing twice is normalizing once |
| Normalizing.NormalizeUpperCase | src/HpiLibrary/utils.py:6-8 | upper-casing a string does not change its normalized form |
| Normalizing.NormalizeLowerCase | src/HpiLibrary/utils.py:6-8 | lower-casing a string does not change its normalized form |
| Normalizing.NormalizeIgnores | src/HpiLibrary/utils.py:6-8 | inserting an underscore or whitespace anywhere does not change the normalized form |
| PyInt.DigitOf | src/HpiLibrary/utils.py:13 | a character's digit value is below 36, or 99 for a non-digit; whitespace, signs and underscores are never digits |
| PyInt.ParseDigits | src/HpiLibrary/utils.py:13 | a digit string is read exactly when it is non-empty and every character is a digit of the base; the value is non-negative |
| PyInt.StripLeading | src/HpiLibrary/utils.py:13 | stripping leading whitespace leaves a string, no longer, that keeps the last character and does not start with whitespace |
| PyInt.StripTrailing | src/HpiLibrary/utils.py:13 | stripping trailing whitespace leaves a string, no longer, that keeps the first character and does not end with whitespace |
| PyInt.StripLeadingSuffix | src/HpiLibrary/utils.py:13 | the stripped string is a suffix of the input, and everything removed before it is whitespace |
| PyInt.StripTrailingPrefix | src/HpiLibrary/utils.py:13 | the stripped string is a prefix of the input, and everything removed after it is whitespace |
| PyInt.IntOf | src/HpiLibrary/__init__.py:68 | `int(x)`: an integer argument passes unchanged, a decimal literal gives its value, and any other string is an invalid-integer error |
| PyInt.DigitChar | src/HpiLibrary/utils.py:13 | the digit character rendered for d reads back as d |
| PyInt.DigitString | src/HpiLibrary/utils.py:4 | every number has at least one digit |
| PyInt.DigitStringDigits | src/HpiLibrary/utils.py:13 | every rendered digit is a digit of the base |
| PyInt.DigitStringValue | src/HpiLibrary/utils.py:13 | the rendered digits denote the number |
| PyInt.DigitStringLeading | src/HpiLibrary/utils.py:13 | the rendering starts with '0' only for zero, so the leading-zero octal rule never misreads `str(n)` |
| PyInt.DigitsRoundTrip | src/HpiLibrary/utils.py:13 | reading back the digits of n in its base gives n |
| PyInt.StripNoSpace | src/HpiLibrary/utils.py:13 | a literal with no surrounding whitespace is not changed by stripping |
| PyInt.DecimalBody | src/HpiLibrary/utils.py:13 | the decimal digits of m read back as m, in base 0 as well as in base 10 |
| PyInt.SignedParse | src/HpiLibrary/utils.py:13 | a literal reads as its body, and with a leading minus as the negated body |
| PyInt.DecimalRoundTrip | src/HpiLibrary/utils.py:4-13 | `int(str(n), 0) == n` and `int(str(n)) == n` for every integer, negatives included |
| PyInt.PrefixedBody | src/HpiLibrary/utils.py:13 | a `0x`/`0o`/`0b` prefix followed by the digits of m reads as m |
| PyInt.PrefixedRoundTrip | src/HpiLibrary/utils.py:13 | a `0x`, `0o` or `0b` literal of n without suffix, signed when n is negative, reads back as n in `int(s, 0)` |
| PyInt.LetterIsNoInteger | src/HpiLibrary/utils.py:12-16 | a token starting with a letter is never an integer literal |
| PyInt.StripPrefixKeepsNonSpace | src/HpiLibrary/utils.py:13 | stripping trailing whitespace keeps a non-space first character |
| PyInt.LeadingZero | src/HpiLibrary/utils.py:13 | `int("010", 0)` is 8, `int("010")` is 10 and `int("09", 0)` is an error |
| PyInt.SignAndSpace | src/HpiLibrary/utils.py:13 | `int(" - 0x1F ", 0)` is -31: whitespace is allowed around the literal and after the sign |
| PyInt.PrefixNeedsDigits | src/HpiLibrary/utils.py:13 | `int("0x", 0)` is an error |
| Utils.FindSymbolFrom | src/HpiLibrary/utils.py:5-10 | the scan from entry k finds the first entry whose normalized name is the key, or reports that none has it |
| Utils.FindSymbol | src/HpiLibrary/utils.py:5-10 | the loop over `dir(obj)` returns the first symbol in table order whose normalized name equals the key, or none when no symbol does |
| Utils.FirstMatchUnique | src/HpiLibrary/utils.py:5-10 | there is at most one first match |
| Utils.ResolvesFunctional | src/HpiLibrary/utils.py:3-16 | the resolution rule fixes a single result |
| Utils.FindAttribute | src/HpiLibrary/utils.py:3-16 | the result follows the resolution rule: the value of the first symbol in table order matching normalize(prefix + str(attr)); failing that, the token as a base-0 integer; failing that, an error naming the token |
| Utils.SymbolBeforeInteger | src/HpiLibrary/utils.py:5-14 | a symbolic match wins over the integer reading of the same token |
| Utils.IntegerFallback | src/HpiLibrary/utils.py:12-14 | with no symbolic match, an integer argument and its decimal spelling both resolve to the integer |
| Utils.PrefixedFallback | src/HpiLibrary/utils.py:12-14 | with no symbolic match, a `0x`, `0o` or `0b` literal without suffix resolves to its value |
| Utils.FindAttributeFails | src/HpiLibrary/utils.py:12-16 | find_attribute fails if and only if no symbol matches and the token is no integer literal |
| Utils.SpellingIrrelevant | src/HpiLibrary/utils.py:6-9 | two tokens with the same normalized form resolve alike when one names a symbol |
| Utils.CaseIrrelevant | src/HpiLibrary/utils.py:6-9 | the case of a symbolic token does not change its resolution |
| Utils.SeparatorIrrelevant | src/HpiLibrary/utils.py:6-9 | an underscore or whitespace inserted into a symbolic token does not change its resolution |
| Utils.IntAnyBase | src/HpiLibrary/utils.py:18-24 | a non-string is returned unchanged; a string that is a base-0 literal gives that literal's value; any other string is an invalid-integer error |
| Utils.IntAnyBaseRoundTrip | src/HpiLibrary/utils.py:18-20 | the decimal spelling of n and its `0x`, `0o` and `0b` spellings without suffix all give n |
| Utils.IsValidLogLevel | src/HpiLibrary/utils.py:72-80 | None and level names in any case are valid; anything else gives False, or an error naming the level when raise_if_invalid is set |
| Utils.LogLevelCaseInsensitive | src/HpiLibrary/utils.py:75-77 | a level string is valid in lower case exactly when it is valid as written, and raises in lower case exactly when it raises as written |
| Utils.LogLevelExamples | src/HpiLibrary/utils.py:72-80 | "warn" is valid; "ERROR" is invalid without raising; an integer level raises; None is valid |
| Utils.Scope.constructor | src/HpiLibrary/utils.py:40 | a new scope is empty |
| Utils.Scope.Put | src/HpiLibrary/__init__.py:120 | `scope[key] = value` updates that key and no other |
| Utils.Scope.Get | src/HpiLibrary/__init__.py:123 | `scope[key]` is the stored value, or a KeyError for a key never written |
| Utils.PerConnectionStorage.constructor | src/HpiLibrary/utils.py:27-29 | the store starts with no scopes |
| Utils.PerConnectionStorage.Cp | src/HpiLibrary/utils.py:31-41 | a missing or None active connection is an error that leaves the store unchanged; a known connection gets its own scope again, unchanged; an unknown one gets a fresh empty scope; no other scope is touched; scopes stay unshared |
| Pyhpi.Session.constructor | src/HpiLibrary/__init__.py:75-77 | a session opened against a reachable daemon is open, sees the daemon's resources and queued events, and has started no test |
| Pyhpi.Session.ResourcesByEntityPath | src/HpiLibrary/__init__.py:124 | the session's resources with that entity path, and no others |
| Pyhpi.Session.GetEvent | src/HpiLibrary/__init__.py:182 | `get(timeout=0)` removes and returns the oldest event, or returns None on an empty queue |
| Pyhpi.Session.StartTest | src/HpiLibrary/__init__.py:476 | `test.start(...)` is recorded with its test and parameters after the earlier starts |
| Pyhpi.Session.Close | src/HpiLibrary/__init__.py:99 | the session is closed; its queue and test starts are kept |
| Pyhpi.Matching | src/HpiLibrary/__init__.py:124 | the filtered list is no longer than the input and holds exactly the resources of the path |
| ConnectionCaching.ConnectionCache.Current | src/HpiLibrary/__init__.py:92-93 | there is a current connection exactly when the cache is not empty |
| ConnectionCaching.ConnectionCache.constructor | src/HpiLibrary/__init__.py:34 | a new cache is empty and has no current index |
| ConnectionCaching.ConnectionCache.Register | src/HpiLibrary/__init__.py:81 | the connection is appended; its index is the count so far plus one, so counting starts at 1; it becomes current; the alias names it |
| ConnectionCaching.ConnectionCache.ResolveIndex | src/HpiLibrary/__init__.py:93 | an alias is tried before the index; a resolved index is in range |
| ConnectionCaching.ConnectionCache.Switch | src/HpiLibrary/__init__.py:93 | an unknown index or alias fails and keeps the current index; a known one becomes current and its connection is returned |
| ConnectionCaching.ConnectionCache.CloseAll | src/HpiLibrary/__init__.py:101-110 | every registered session is closed, with queues and test starts kept; the cache is empty, so numbering restarts at 1 |
| Mapping.FindEventType | src/HpiLibrary/mapping.py:19-20 | resolution with prefix SAHPI_ET_ |
| Mapping.FindFumiAccessProtocol | src/HpiLibrary/mapping.py:22-23 | resolution with prefix SAHPI_FUMI_PROT_ |
| Mapping.FindFumiCapabilities | src/HpiLibrary/mapping.py:25-26 | resolution with prefix SAHPI_FUMI_CAP_ |
| Mapping.FindFumiUpgradeState | src/HpiLibrary/mapping.py:28-29 | resolution with prefix SAHPI_FUMI_ |
| Mapping.FindFumiSourceStatus | src/HpiLibrary/mapping.py:31-32 | resolution with prefix SAHPI_FUMI_SRC_ |
| Mapping.FindDimiTestServiceImpact | src/HpiLibrary/mapping.py:34-35 | resolution with prefix SAHPI_DIMITEST_ |
| Mapping.FindDimiTestCapabilities | src/HpiLibrary/mapping.py:37-39 | resolution with prefix SAHPI_DIMITEST_CAPABILITY_ |
| Mapping.FindDimiTestStatus | src/HpiLibrary/mapping.py:41-42 | resolution with prefix SAHPI_DIMITEST_STATUS_ |
| Mapping.FindDimiTestStatusError | src/HpiLibrary/mapping.py:44-45 | resolution with prefix SAHPI_DIMITEST_STATUSERR_ |
| Mapping.Find | src/HpiLibrary/mapping.py:19-45 | each family's wrapper follows the resolution rule with its family's prefix |
| Mapping.FindIsFindAttribute | src/HpiLibrary/mapping.py:19-45 | every wrapper equals find_attribute over the same table with its fixed prefix |
| Mapping.NumericFallbackEveryFamily | src/HpiLibrary/mapping.py:19-45 | in every family, a number that names no symbol resolves to itself, given as an integer or as its decimal string |
| Mapping.FailsExactlyWhenUnresolvable | src/HpiLibrary/mapping.py:19-45 | every wrapper fails if and only if find_attribute does, with the same error |
| Mapping.NestedPrefixLeak | src/HpiLibrary/mapping.py:19-45 | when one prefix extends another by a letter-initial q, the token q + x under the shorter prefix resolves as x under the longer one whenever x names a symbol there, and otherwise fails with an error naming q + x |
| Mapping.UpgradeStateReachesCapabilities | src/HpiLibrary/mapping.py:25-29 | find_fumi_upgrade_state('CAP_' + x) is find_fumi_capabilities(x) for every symbolic x |
| Mapping.ServiceImpactReachesStatus | src/HpiLibrary/mapping.py:34-42 | find_dimi_test_service_impact('STATUS_' + x) is find_dimi_test_status(x) for every symbolic x |
| Mapping.StatusReachesStatusError | src/HpiLibrary/mapping.py:41-45 | because underscores are ignored, find_dimi_test_status('ERR_' + x) is find_dimi_test_status_error(x) for every symbolic x |
| Mapping.CapabilityReadAsUpgradeState | src/HpiLibrary/mapping.py:25-29 | with the symbol SAHPI_FUMI_CAP_ROLLBACK present, the upgrade-state family resolves "CAP_ROLLBACK" to the capability's value |
| Selections.FirstIndex | src/HpiLibrary/__init__.py:132-137 | the linear search with early return: the position of the first element satisfying the test, with none before it, or the length when there is none |
| Selections.MatchingEmpty | src/HpiLibrary/__init__.py:124-125 | no resource is retrieved exactly when no resource carries the path |
| Selections.MatchingOne | src/HpiLibrary/__init__.py:124-128 | exactly one resource is retrieved if and only if exactly one position carries the path, and then it is that resource |
| Selections.UniqueResource | src/HpiLibrary/__init__.py:122-128 | the resource is returned if and only if exactly one resource carries the path, and it is that one; zero and several matches give the same error |
| Selections.FirstRdr | src/HpiLibrary/__init__.py:130-138 | None if and only if no record of the kind has the id string; otherwise the first such record in order |
| Selections.FindRdrIn | src/HpiLibrary/__init__.py:132-138 | the loop with its early return computes FirstRdr |
| Selections.FirstParameter | src/HpiLibrary/__init__.py:459-465 | None if and only if no parameter has the name; otherwise the first one in order |
| Selections.DefaultValueCheck | src/HpiLibrary/__init__.py:458-467 | passes if and only if the test is selected, has a parameter of the name, and its first such parameter's default equals the expected value; an unselected test and a missing parameter fail with their own errors |
| Selections.PartitionAtEquals | src/HpiLibrary/__init__.py:470 | `split('=', 1)` gives two parts exactly when the token has an '='; they rebuild the token around the first '=' |
| Selections.PartitionAtFirstEquals | src/HpiLibrary/__init__.py:470 | a name without '=' joined to any value by '=' splits back into that name and value |
| Selections.PartitionExamples | src/HpiLibrary/__init__.py:470-474 | "a=b=c" gives ("a", "b=c"), "a=" gives ("a", ""), and "ab" has no split |
| Selections.SplitsAsUnique | src/HpiLibrary/__init__.py:470-474 | the split of a token list is unique |
| Selections.SplitParameters | src/HpiLibrary/__init__.py:470-474 | succeeds if and only if every token has an '=', with each token's split in order; otherwise a malformed-parameter error |
| Selections.CheckEventStatus | src/HpiLibrary/__init__.py:214-228 | passes if and only if an event is selected, it has the family's type, and the expected value resolves to its status; an event of another type fails with the type guard's error before the expected value is resolved |
| HpiLibrary.Library.constructor | src/HpiLibrary/__init__.py:32-37 | no active session, an empty cache and an empty store |
| HpiLibrary.Library.ActiveProp | src/HpiLibrary/__init__.py:33-35 | the `_active_session` attribute always exists, and is a connection exactly when a session is active |
| HpiLibrary.Library.ReadSelection | src/HpiLibrary/__init__.py:123 | `self._cp[key]` gives the active scope's entry, or the no-connection or unset-key error; the store only gains the active scope |
| HpiLibrary.Library.WriteSelection | src/HpiLibrary/__init__.py:120 | `self._cp[key] = v` fails without an active session; otherwise only the active scope changes, and only at the key |
| HpiLibrary.Library.PutSelection | src/HpiLibrary/__init__.py:120 | writing the active scope's dictionary changes that connection's entry at the key and no other connection's |
| HpiLibrary.Library.OpenHpiConnection | src/HpiLibrary/__init__.py:61-81 | a port that is no integer fails first, and an unreachable daemon fails next, both leaving state unchanged; otherwise a fresh open session becomes active and is registered, and its 1-based index is returned |
| HpiLibrary.Library.SwitchHpiConnection | src/HpiLibrary/__init__.py:83-94 | the previous current index is returned; the switched-to connection becomes the device; the active session and every selection are unchanged; an unknown index or alias fails |
| HpiLibrary.Library.CloseHpiConnection | src/HpiLibrary/__init__.py:96-99 | the active session is closed; with no session the call fails |
| HpiLibrary.Library.CloseAllHpiConnections | src/HpiLibrary/__init__.py:101-110 | every cached session is closed, the cache is empty, the active session becomes None, and the stored selections are kept |
| HpiLibrary.Library.SetEntityPath | src/HpiLibrary/__init__.py:112-120 | a parse failure fails and leaves the store unchanged; otherwise the path is stored under entity_path in the active scope, and every other key is kept |
| HpiLibrary.Library.SelectedResource | src/HpiLibrary/__init__.py:122-128 | the one resource of the active session whose entity path is the stored path; zero or several matches, or no stored path, fail; nothing is written |
| HpiLibrary.Library.FindRdr | src/HpiLibrary/__init__.py:130-138 | the first record of the kind and id string among the selected resource's records, or None; the errors of the resource lookup pass through |
| HpiLibrary.Library.RdrShouldExist | src/HpiLibrary/__init__.py:140-144 | a found record is stored under selected_rdr; when the lookup fails or finds nothing, the call fails and no selection changes |
| HpiLibrary.Library.FumiRdrShouldExist | src/HpiLibrary/__init__.py:255-268 | passes if and only if the selected resource has a FUMI record with the id; the first such record is then stored under selected_rdr and nothing else changes; a failure passes on the lookup's error or reports the missing record, and changes no selection |
| HpiLibrary.Library.DimiRdrShouldExist | src/HpiLibrary/__init__.py:401-414 | passes if and only if the selected resource has a DIMI record with the id; the first such record is then stored under selected_rdr and nothing else changes; a failure passes on the lookup's error or reports the missing record, and changes no selection |
| HpiLibrary.Library.SelectTest | src/HpiLibrary/__init__.py:416-422 | the checks run in the source's order: the number is an integer, then a unique resource exists, then a record is selected; only then is the test stored under selected_dimi_test |
| HpiLibrary.Library.DefaultValueOfParameterOfSelectedTestShouldBe | src/HpiLibrary/__init__.py:456-467 | the outcome is the default-value check on the selected test |
| HpiLibrary.Library.StartTest | src/HpiLibrary/__init__.py:469-476 | a token without '=' fails before the test is looked up; otherwise the selected test is started once, with the split pairs, or with None when there are no tokens |
| HpiLibrary.Library.ClearEventQueue | src/HpiLibrary/__init__.py:179-184 | the active session's event queue is empty afterwards; with no session the call fails |
| HpiLibrary.Library.WaitUntilEventQueueContainsEventType | src/HpiLibrary/__init__.py:186-209 | the event type is resolved first; events of other types are dropped; the first event of the type is stored under selected_event and the rest of the queue is kept; a queue with no such event is drained and the call fails |
| HpiLibrary.Library.UpgradeStateOfFumiEventShouldBe | src/HpiLibrary/__init__.py:214-220 | the outcome is the event check with the FUMI type guard and the upgrade-state family |
| HpiLibrary.Library.TestStatusOfDimiEventShouldBe | src/HpiLibrary/__init__.py:222-228 | the outcome is the event check with the DIMI type guard and the test-status family |
| HpiLibrary.TakeEventOfType | src/HpiLibrary/__init__.py:193-206 | the loop takes events up to and including the first of the wanted type, and returns it; with none, it empties the queue and returns None |

## Left out

- Logging output (`_log`, `_log_format` and the `_info`/`_debug` calls in the keywords): printing is I/O. Only the level check is modelled.
- HpiLibrary.Library.FindRdr: the source's debug message can raise. `_log_format` applies `fmt % args` with no arguments (`src/HpiLibrary/utils.py:62`) to a message that is already formatted. An `id_string` such as `50%` or `%s` in any record the loop visits (`src/HpiLibrary/__init__.py:133-134`) therefore raises `ValueError` or `TypeError` in the source, even when that record is not the one searched for. The model returns the first match regardless. The same holds for such a host in `OpenHpiConnection` (`src/HpiLibrary/__init__.py:70`) and such an entity path in `SetEntityPath` (`src/HpiLibrary/__init__.py:119`).
- `set_timeout`, and the timeout and poll interval of the wait keywords: they are wall-clock durations in float seconds, converted by the test runner.
- `wait_until_upgrade_state_is` and `wait_until_test_status_is`: they poll a foreign status call against the clock.
- HpiLibrary.Library.WaitUntilEventQueueContainsEventType: only the events already queued are modelled, with no new arrivals and without `may_fail`. When none of the type is queued, the model fails with `NoEventOfType`. The source instead blocks in the listener's `get` until that call fails, because its `timeout` is computed once (`src/HpiLibrary/__init__.py:192`) and is never recomputed.
- `open_hpi_connection`'s `host` and its writes to `os.environ`: process environment I/O. The daemon reached is a parameter.
- The internals of the HPI client: session opening, entity-path parsing, the FUMI and DIMI handlers with their banks, `get_test_by_num`, `status()` and `results()`. Entity-path parsing is a parameter (`SetEntityPath` takes the parsed path, or None for a parse error), and so is `get_test_by_num` (`SelectTest` takes the test).
- HpiLibrary.Library.SelectTest: `dimi_handler_by_rdr` and `get_test_by_num` are not modelled, so their errors, and a record of the wrong kind, do not occur in the model.
- The thin assertion keywords (`product_id_of_selected_resource_should_be`, the bank, record and test "… should be" keywords, `entity_path_should_exist`), the FUMI actions, `cancel_test`, `set_fumi_number`, `set_dimi_number` and the bank selections. Each is one foreign accessor or call plus an equality check. Their selection keys (`fumi_number`, `selected_fumi_bank`, `dimi_number`) are not in `Selection`.
- The equality assertion's message formatting: a failed comparison is `NotEqual(expected, actual)`.
- ConnectionCaching.ConnectionCache.ResolveIndex: aliases are matched exactly. The test runner's case- and space-insensitive alias dictionary is not modelled.
- ConnectionCaching.ConnectionCache.CloseAll: returns None, as the stub this model assumes does. The test runner's own cache returns a no-connection placeholder object.
- Pyhpi.Session.Close: cannot fail. Transport errors on close are not modelled.
- HpiLibrary.Library.CloseHpiConnection: `_active_session` being None raises AttributeError in the source, modelled as the `NoSession` error. The same holds for the event keywords.
- `_active_device` is not initialized by the source's constructor. The model starts it as None; it is never read.
- Pyhpi.Event: one `status` field stands for both the FUMI event's `status` and the DIMI event's `run_status`.
- Utils.IntAnyBase: only the default base 0. Unicode strings and the Python 2 `L` suffix are not modelled, and neither are arguments other than strings and integers.
- Utils.FindAttribute: keyword arguments are modelled as byte strings. The test runner passes `unicode` under Python 2, and for a non-ASCII token `str(attr)` (`src/HpiLibrary/utils.py:4`) raises `UnicodeEncodeError`, where the model returns the not-found error. `str(attr)` is modelled for strings and integers only, and `dir()` for a table of integer-valued symbols. Normalization covers ASCII letters only, with no Unicode case folding.
- Utils.FindAttribute: the not-found error carries only the token. The source's message also names the module searched (`src/HpiLibrary/utils.py:16`), which is always the same constant module here.
- PyInt.IntOf: byte strings only. On a `unicode` argument `int()` also accepts non-ASCII decimal digits and Unicode whitespace, which the model rejects. This affects the port, the test number and the switch index.
