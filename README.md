# Responsive preview tool: state model

A Dafny model of the in-memory logic of a responsive-design preview tool. The
tool shows one web page in several device-sized frames at once. The model
covers:

- **URL loading.** The text typed into the address field is trimmed. Blank input
  is ignored. Text without a scheme gets `http://` when it names a local host and
  `https://` otherwise. The result is published as the current URL and saved, and
  a load counter moves on. Every viewport is keyed by `presetId-loadVersion`, so a
  reload re-creates every frame.
- **The preset registry.** The seven built-in device presets come first, then the
  user's custom presets in creation order.
- **The selection.** This is the ordered list of visible preset ids. Its
  operations are toggle, show all (zoom 0.4), show only one (zoom 1.0),
  add-and-show and delete-and-hide. The rendered viewports are the registry
  filtered by that list.
- **The "Add Custom Device" form.** Submit checks that the fields are non-empty.
  It builds a preset with id `custom-<timestamp>` and `parseInt` sizes, reports it
  through `onAdd` and then `onClose`, and resets the fields.

Modules, one per source file plus helpers:

- `Types` holds the preset record and the device category (types.ts).
- `Constants` holds the built-in table, the default URL and the zoom bounds (constants.ts).
- `App` holds the normaliser, the list transformations and the `App` class (App.tsx).
- `AddDeviceModal` holds the `Form` class (components/AddDeviceModal.tsx).
- `Text` models the JavaScript string operations used: `trim`, a case-insensitive
  regex prefix, `includes`, decimal rendering and `parseInt`.
- `Lists` holds duplicate-freedom and filter-out-a-value.
- `Wrappers` holds `Option`.

The `App` class keeps the component state as fields. Each handler is a method.
Its `ensures` gives the whole new state, and `modifies` names the only fields
it may touch. The invariant `Valid()` says four things:

- registry ids are unique;
- every visible id names a registered preset;
- no visible id is repeated;
- the zoom lies within `[MIN_SCALE, MAX_SCALE]`.

The handlers do not require `Valid()`. Each one promises to keep it under the
condition its callers provide. The sidebar toggles and solos only ids of listed
presets (components/Sidebar.tsx:97, 124). The slider offers only in-range values
(components/Header.tsx:59-65). A new preset carries an unused id.

Local storage becomes two fields of `App`: `storedUrl` and `storedPresets`.
`storedPresets` holds the decoded list. The constructor receives what storage
held at mount. For the custom presets that is the result of `JSON.parse`, with
`None` for absent or unreadable data. `Date.now()` becomes the parameter `now`
of the submit.

Three behaviours of the code shape the model:

- The selection is an ordered list of ids (App.tsx:76-78). Toggling an id twice
  restores which ids are visible, but not always their order.
- Toggling an id that no preset carries appends it (App.tsx:78). This is why
  "visible ids are registered" is conditional on the caller.
- Deleting a built-in id leaves the registry unchanged, but it still hides that
  id (App.tsx:107).

## Model

| member | source | states |
|---|---|---|
| `Text.TrimStart` | App.tsx:55 | result is the suffix of the input from its first non-whitespace character; everything dropped is ECMAScript whitespace |
| `Text.TrimEnd` | App.tsx:55 | result is the prefix of the input up to its last non-whitespace character; everything dropped is whitespace |
| `Text.TrimEmptyIffBlank` | App.tsx:55-57 | `trim()` gives the empty string exactly when every character is whitespace |
| `Text.Trim` | App.tsx:55 | `trim()` never lengthens the text, and a non-empty result has non-whitespace first and last characters |
| `Text.TrimFixed` | App.tsx:55 | trimming text with no blank at either end returns it unchanged |
| `Text.AsciiLowerPreimage` | App.tsx:60 | under the `i` flag a lower-case pattern letter matches exactly itself and its capital; any other non-capital pattern character matches only itself |
| `Text.Includes` | App.tsx:61 | the empty text is included in every text, and a text longer than `s` is never included in `s` |
| `Text.IncludesAt` | App.tsx:61 | if `sub` occurs at some position of `s`, then `s.includes(sub)` |
| `Text.IncludesWitness` | App.tsx:61 | if `s.includes(sub)`, then it returns a position where `sub` occurs |
| `Text.NotIncludesByFirstChar` | App.tsx:61 | `sub` is not included when its first character is missing from every starting position |
| `Text.ToDecimal` | App.tsx:149 | the decimal text of a counter is non-empty and all digits, with no leading zero |
| `Text.ParseToDecimal` | App.tsx:149 | reading the decimal text back yields the number |
| `Text.ToDecimalInjective` | components/AddDeviceModal.tsx:24 | different numbers have different decimal texts |
| `Text.SplitBeforeDigits` | App.tsx:149 | `a1-d1 == a2-d2` with digit runs `d1`, `d2` forces `a1 == a2` and `d1 == d2` |
| `Text.DigitPrefix` | components/AddDeviceModal.tsx:26-27 | result is the longest all-digit prefix of the text: the next character, if any, is not a digit |
| `Text.ParseIntToDecimal` | components/AddDeviceModal.tsx:26-27 | `parseInt` of the decimal text of `n` is `n` |
| `Text.ParseInt` | components/AddDeviceModal.tsx:26-27 | the result is a number exactly when the text starts with a digit, or with a sign followed by a digit; a negative result needs a leading `-`; an all-digit text gives its decimal value |
| `Text.ParseIntNegative` | components/AddDeviceModal.tsx:26-27 | `parseInt` of `-` followed by the decimal text of `n` is `-n` |
| `Text.ParseIntCases` | components/AddDeviceModal.tsx:26-27 | `parseInt` gives NaN on empty text and on text starting with a non-digit other than a sign; text starting with a digit gives a non-negative integer |
| `Constants.IsCustomId` | components/Sidebar.tsx:83 | an id the sidebar treats as custom is at least seven characters long and starts with `custom-` |
| `Constants.BuiltinsDistinct` | constants.ts:3-53 | there are exactly seven built-in presets and their ids are pairwise distinct |
| `Constants.BuiltinsNotCustom` | constants.ts:5-51 | no built-in id starts with `custom-` |
| `Constants.BuiltinSizes` | constants.ts:7-51 | every built-in width and height is an integer of at least 375 |
| `Constants.ScaleBounds` | constants.ts:56-58 | `MIN_SCALE <= INITIAL_SCALE <= MAX_SCALE`, and both 0.4 and 1.0 lie within the bounds |
| `AddDeviceModal.CustomId` | components/AddDeviceModal.tsx:24 | the generated id starts with `custom-` (so the sidebar offers deletion, components/Sidebar.tsx:83) and equals no built-in id |
| `AddDeviceModal.CustomIdInjective` | components/AddDeviceModal.tsx:24 | presets created at different times get different ids |
| `AddDeviceModal.InitialSizeParses` | components/AddDeviceModal.tsx:13-14 | the initial size texts `'375'` and `'667'` parse to 375 and 667 |
| `AddDeviceModal.Form.constructor` | components/AddDeviceModal.tsx:12-15 | the form starts with name `''`, width `'375'`, height `'667'`, type Mobile |
| `AddDeviceModal.Form.SetName` | components/AddDeviceModal.tsx:69 | the name field takes the typed text; nothing else changes |
| `AddDeviceModal.Form.SetWidth` | components/AddDeviceModal.tsx:83 | the width field takes the typed text; nothing else changes |
| `AddDeviceModal.Form.SetHeight` | components/AddDeviceModal.tsx:94 | the height field takes the typed text; nothing else changes |
| `AddDeviceModal.Form.SetKind` | components/AddDeviceModal.tsx:109 | the device type takes the chosen category; nothing else changes |
| `AddDeviceModal.Form.Submit` | components/AddDeviceModal.tsx:19-38 | an empty name, width or height means no callback and no field change. Otherwise there are exactly two calls, `onAdd` and then `onClose`. The preset has id `custom-<now>`, the same name and type, and `parseInt` of the size texts. The form is back to its initial state |
| `App.HasScheme` | App.tsx:60 | a text with a scheme starts with `h` or `H` and has `://` right after `http` or `https` (in any case) |
| `App.HasSchemeIgnoresCase` | App.tsx:60 | two texts equal up to ASCII case agree on whether they have a scheme |
| `App.IsLocal` | App.tsx:61 | a text naming a local host is at least nine characters long; one that does not contains no `localhost` |
| `App.Normalize` | App.tsx:55-63 | None exactly when the trimmed input is empty. Otherwise the result has an `http(s)://` scheme (ignoring case) and ends with the trimmed input |
| `App.SchemePrefixes` | App.tsx:62 | both prefixes a load can add produce a URL with a scheme, followed by the unchanged text |
| `App.NormalizePrefix` | App.tsx:60-63 | three iffs. No prefix is added exactly when the trimmed text has a scheme. `http://` is added exactly when it has none and contains `localhost` or `127.0.0.1`. `https://` is added exactly when it has neither |
| `App.NormalizeIdempotent` | App.tsx:55-63 | normalising a normalised URL returns it unchanged |
| `App.NormalizeBareHost` | App.tsx:60-62 | `example.com` loads as `https://example.com` |
| `App.NormalizeLocalHost` | App.tsx:60-62 | `localhost:3000` loads as `http://localhost:3000` |
| `App.NormalizeKeepsScheme` | App.tsx:60 | `https://foo.com` loads unchanged |
| `App.NormalizeKeepsUpperScheme` | App.tsx:60 | `HTTP://Example.com` loads unchanged: the scheme test ignores case |
| `App.NormalizeUpperLocalHost` | App.tsx:61-62 | `LOCALHOST:3000` does not name a local host, since the test is case-sensitive, so it loads as `https://LOCALHOST:3000` |
| `App.NormalizeIgnoresBlank` | App.tsx:55-57 | `""` and `"   "` are ignored |
| `App.DefaultUrlLoadsItself` | constants.ts:55 | loading `DEFAULT_URL` yields `DEFAULT_URL` |
| `App.Toggle` | App.tsx:74-80 | the id becomes visible exactly when it was hidden; every other id keeps its visibility; a hidden id is appended at the end |
| `App.ToggleTwiceMembers` | App.tsx:74-80 | toggling the same id twice restores the set of visible ids |
| `App.ToggleTwiceHidden` | App.tsx:74-80 | toggling a hidden id twice restores the list exactly |
| `App.ToggleNoDup` | App.tsx:74-80 | toggling keeps a duplicate-free list duplicate-free |
| `Lists.RemoveAll` | App.tsx:76 | the result holds exactly the elements other than `x`, and it is strictly shorter when `x` occurred |
| `Lists.RemoveAllAbsent` | App.tsx:107 | filtering out an absent id changes nothing |
| `Lists.RemoveAllConcat` | App.tsx:107 | filtering distributes over concatenation, so the survivors keep their order |
| `Lists.RemoveAllNoDup` | App.tsx:107 | filtering keeps a duplicate-free list duplicate-free |
| `App.RemoveById` | App.tsx:102 | the result holds exactly the presets whose id differs from the deleted one |
| `App.RemoveByIdConcat` | App.tsx:102 | deletion distributes over concatenation, so the other custom presets keep their relative order |
| `App.RemoveByIdAbsent` | App.tsx:102 | deleting an id no custom preset carries leaves the list unchanged |
| `App.RemoveByIdUnique` | App.tsx:102 | deletion keeps ids unique |
| `App.FilterVisible` | App.tsx:111 | a preset is rendered exactly when it is registered and its id is visible |
| `App.FilterVisibleConcat` | App.tsx:70-111 | rendering follows registry order: visible built-ins, then visible custom presets |
| `App.FilterVisibleUnique` | App.tsx:111 | rendered presets have unique ids when the registry does |
| `App.VisibleCount` | App.tsx:111 | under the invariant, the number of rendered viewports equals the number of visible ids that the sidebar footer shows (components/Sidebar.tsx:154) |
| `App.FilterVisibleIds` | App.tsx:111 | when every visible id is registered, the rendered presets carry exactly the visible ids |
| `App.ValidVisible` | App.tsx:111 | under `Valid()`, the rendered presets number exactly as many as the visible ids, have unique ids, and their ids are exactly the visible ids; the sidebar footer's count (components/Sidebar.tsx:154) is the viewport count |
| `App.ViewportKey` | App.tsx:149 | the key is the preset id, a `-`, then digits that `parseInt` reads back as the load version |
| `App.ViewportKeyInjective` | App.tsx:149 | equal viewport keys come from the same preset id and the same load version. Keys within one render are distinct, and every load changes every key |
| `App.ReloadRenewsKeys` | App.tsx:149 | a key rendered after a load (version `v + 1`) differs from every key rendered before it (version `v`), so every frame is re-created even when the URL is unchanged |
| `App.App.AllPresets` | App.tsx:70 | the registry is the seven built-ins, in order, followed by the custom presets, in order |
| `App.App.VisiblePresets` | App.tsx:111 | a preset is rendered exactly when it is registered and its id is visible; never more presets than the registry holds |
| `App.App.constructor` | App.tsx:11-52 | mount state. A non-empty saved URL becomes both the input and the current URL. Otherwise the input is `DEFAULT_URL` and the current URL is empty. Custom presets are the parsed list, or none when storage is absent or corrupt. Every preset is visible. Zoom is 0.4 and the load version is 0. `Valid()` holds when the loaded ids are unique |
| `App.App.SetInputUrl` | App.tsx:130 | the address field takes the typed text; nothing else changes |
| `App.App.SetScale` | App.tsx:133 | the zoom takes the slider value; `Valid()` is kept for values within the bounds |
| `App.App.Load` | App.tsx:54-68 | blank input changes nothing. Otherwise the current URL becomes the normalised input, the load version grows by exactly 1, and storage holds that same URL. Input, selection, registry and zoom are untouched |
| `App.App.TogglePreset` | App.tsx:73-81 | the visible list becomes `Toggle` of the old one and nothing else changes; `Valid()` is kept when the id is registered |
| `App.App.SelectAll` | App.tsx:83-86 | visible ids become the registry's ids in registry order and zoom becomes 0.4; afterwards `Valid()` holds whenever registry ids are unique |
| `App.App.SelectOnly` | App.tsx:88-91 | visible ids become exactly `[id]` and zoom becomes 1.0; `Valid()` is kept when the id is registered |
| `App.App.AddPreset` | App.tsx:93-99 | the custom list gains exactly the new preset at its end and storage holds that list. The registry is the old registry plus the preset, and its id is appended to the visible list. `Valid()` is kept when the id is new |
| `App.App.DeletePreset` | App.tsx:101-108 | custom presets with the id are filtered out, storage holds the result, and the id is filtered out of the visible list. Built-ins stay. `Valid()` is kept |
| `App.App.OpenAddDevice` | App.tsx:122 | the add-device form is shown |
| `App.App.CloseAddDevice` | App.tsx:161 | the add-device form is hidden |
| `App.App.SubmitAddDevice` | App.tsx:160-164 | a form submit wired to the component. With an empty field, neither the component nor the form changes. Otherwise the new `custom-<now>` preset is added, persisted and shown, the form closes and resets, and the current and typed URL, stored URL, load version and zoom are untouched; the method may write only the registry, storage of presets, selection, form visibility and the form. `Valid()` is kept when no custom preset already has that id |
| `App.NewIdUnregistered` | components/AddDeviceModal.tsx:24 | a `custom-` id unused by the custom list is unused by the whole registry |
| `App.DeleteBuiltinKeepsRegistry` | App.tsx:101-104 | deleting a built-in id leaves the custom list, and so the registry, unchanged |
| `App.DeleteKeepsUnique` | App.tsx:102 | deleting custom presets keeps registry ids unique |
| `App.DeleteKeepsVisibleRegistered` | App.tsx:102-107 | after a deletion, every id still visible names a preset still registered |

## Left out

- Rendering is not modelled: JSX, CSS, the icon switches, the empty-selection
  placeholder and the zoom percentage label. None of it changes state.
- The viewport's scaled container size (`width * scale`) and the slider's
  `parseFloat` are not modelled, because both are floating point. The zoom is an
  exact `real`, and its bound is conditional on the slider's range.
- React reconciliation is not modelled: the `memo` comparator and iframe
  teardown. `ViewportKeyInjective` states the key property that teardown relies on.
- The iframe `sandbox` and `referrerPolicy` attributes are not modelled. They
  are platform configuration.
- The `confirm()` dialog before a delete is not modelled: it is a browser prompt.
  `DeletePreset` models the confirmed case.
- Local storage is reduced to two fields, and JSON encoding is not modelled. The
  constructor receives the parsed list.
- Stored JSON that parses but is not an array is not modelled. `JSON.parse("null")`
  is an example: the mount effect would then fail when it spreads the value.
- `Date.now()` is the parameter `now`. Decimal rendering is exact; JavaScript
  switches to exponent notation at 10^21, which is not modelled.
- `Text.ParseInt` does not skip leading whitespace and does not read `0x`
  prefixes; the value of a number input never holds either. It returns the
  exact integer where JavaScript rounds to the nearest double: a width such as
  `99999999999999999999` is accepted by the input and reaches the submit, and
  the model keeps it exact. Sizes above 2^53 are not modelled.
- The `min="100"` of the size inputs is not modelled: the browser enforces it,
  not the submit handler. No lower bound is claimed for custom sizes.
- Strings are sequences of Unicode scalar values, not UTF-16 code units.
  Trimming and matching use only characters of the Basic Multilingual Plane,
  so the difference does not show.
- The form's early `return null` when closed is not modelled. The form keeps
  its field values while hidden, and `SubmitAddDevice` does not require the
  form to be open.
- vite.config.ts is not part of this model: it is build configuration.
