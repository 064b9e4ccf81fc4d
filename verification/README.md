# Password generator: a verified model

The repository offers the same small password pipeline three times: a Flask web
server (`app.py`), a Tk desktop form (`password_generator_gui.py`) and a browser
script (`script.js`). Each copy builds a character pool from four fixed alphabets
(upper case, lower case, digits, and the symbols `!@#$%^&*()_+-=[]{}|;:,.<>?`),
removes the characters the user excludes, draws a password from the pool, and rates
its strength.

The model has five modules:

- `CharPool` (`alphabets.dfy`) holds the four alphabets and the exclusion filter
  `Without`. It also defines the ordered concatenation `Join` of the enabled
  alphabets, the filtered pool `Pool`, and the plain draw `Draw`.
- `Strength` (`strength.dfy`) holds the 7-point score shared by the server and the
  script: three length thresholds plus four character classes. It also holds that
  score's labels.
- `WebApp` (`web_app.dfy`) is the server's `generate_password` and `calculate_strength`.
- `BrowserScript` (`browser_script.dfy`) is the script's `generatePassword` and
  `calculatePasswordStrength`.
- `DesktopForm` (`desktop_form.dfy`) is the desktop form. It covers:
  - the per-alphabet filtering and the plain or rule-enforcing draw;
  - `generate_secure_password`, which seeds, fills, shuffles, repairs adjacent
    repeats and truncates;
  - the 8-point score of `analyze_password_strength`;
  - a `Form` class whose fields are the form's settings and what it displays.

Randomness is arbitrary choice. Each `random.choice` or `Math.random` draw is an
index chosen with `:|`, and `random.shuffle` is any permutation, which means the
same multiset. Every property therefore holds for every outcome of the random
source. The shown error dialog is returned as a `Dialog` value.

## Model

| member | source | states |
|---|---|---|
| CharPool.Without | password_generator_gui.py:149-153 | Removing excluded characters never lengthens a string, and a character survives exactly when it was present and is not excluded |
| CharPool.Join | app.py:23-31 | The concatenated charset holds exactly the characters of the enabled alphabets, and its length is the sum of their lengths |
| CharPool.PoolMembers | app.py:23-36 | A character is in the pool exactly when it is not excluded and belongs to an enabled alphabet |
| CharPool.BuildPool | app.py:23-31 | The `+=` steps over the enabled categories yield the enabled alphabets concatenated in the order upper, lower, digits, symbols; the desktop form (password_generator_gui.py:156-160) and the script (script.js:70-74) use the same steps |
| CharPool.WithoutNothing | script.js:76-79 | With nothing excluded, the charset is left unchanged, which is why skipping the filter on an empty exclusion text is sound |
| CharPool.WithoutConcat | app.py:33-36 | Removing characters distributes over concatenation |
| CharPool.WithoutTwice | app.py:34-36 | Stripping one set of characters and then another equals stripping their union |
| CharPool.ExcludeStep | app.py:35-36 | One `replace` step of the exclusion loop takes the charset filtered by the first i excluded characters to the charset filtered by the first i+1 |
| CharPool.WithoutIdempotent | app.py:34-36 | Excluding the same characters twice equals excluding them once |
| CharPool.PoolByExcludedSet | app.py:34-36 | The pool does not depend on the order or repetition of characters in the exclusion text |
| CharPool.WithoutEverything | script.js:77-79 | Excluding every character of the charset leaves it empty |
| CharPool.JoinWithout | password_generator_gui.py:149-160 | Filtering each alphabet and then concatenating gives the same pool as concatenating and then filtering, so the desktop form's pool equals the server's and the script's |
| CharPool.AddIfWithout | password_generator_gui.py:157-160 | One `char_pool += alphabet` step commutes with filtering |
| CharPool.Draw | app.py:46 | The plain draw returns exactly `length` characters, each one from the pool |
| Strength.LengthPoints | app.py:59-61 | The length points are at most 3; they are 0 exactly below 8 characters and 3 exactly from 16 characters |
| Strength.VarietyPoints | app.py:64-67 | The class points are at most 4; all 4 are earned exactly when lower, upper, digit and other characters all occur; a non-empty string earns at least 1 |
| Strength.Score7 | app.py:56-67 | The score is at most 7 and at most 4 below 8 characters; it is 7 exactly for 16 or more characters covering all four classes |
| Strength.Label7 | app.py:70-73 | Every score gets one of the four labels, never "None" |
| Strength.Label7Monotone | script.js:107-110 | A higher score never gets a lower label |
| Strength.ClassesPersist | app.py:64-67 | Appending characters keeps every class already present |
| Strength.Score7Extend | app.py:56-67 | Appending characters never lowers the 7-point score |
| Strength.VarietyBySet | script.js:101-104 | The class points depend only on the set of characters present |
| Strength.Score7Reorder | script.js:92-105 | Reordering a password keeps its 7-point score, because the score sees only its length and which characters occur |
| Strength.AlphabetClasses | app.py:10-15 | Each fixed alphabet lies in its class: upper letters, lower letters, digits, and symbols that are neither letters nor digits |
| WebApp.RemoveExcluded | app.py:34-36 | Stripping each excluded character in turn with `replace` leaves the charset without every excluded character, in its original order |
| WebApp.GeneratePassword | app.py:17-47 | An empty filtered charset yields the no-type error even for a short length. A non-empty charset with length below 4 yields the length error. Otherwise the result is exactly `length` pool characters, none of them excluded |
| WebApp.CalculateStrength | app.py:49-73 | "None" exactly for text beginning "Error:". Strong exactly for other text of 16 or more characters with all four classes. Weak or Fair for other text under 8 characters |
| WebApp.ErrorsUnrated | app.py:39-43 | Both error messages are rated "None" |
| WebApp.StrengthExtend | app.py:49-73 | Appending characters never lowers the rating unless the longer text begins with "Error:" |
| WebApp.StrengthDropsOnPrefix | app.py:53-54 | "Error" is rated Weak, but appending ":" drops it to "None" |
| WebApp.ErrorPrefixedPasswordUnrated | app.py:46-54 | The 12-character password "Error:Ab1xyz" can be drawn for the default request (length 12, every category, nothing excluded), yet it is rated "None" |
| WebApp.RateOutcome | app.py:49-73 | "None" exactly for a refusal; any generated password gets its 7-point label |
| WebApp.RateOutcomeAgrees | app.py:49-73 | The kind-based rating equals `calculate_strength` on both refusals and on every password not beginning "Error:"; it differs on those that do |
| BrowserScript.Repeat | script.js:82-86 | n copies of a text have n times its length; no copies give the empty text |
| BrowserScript.CalculatePasswordStrength | script.js:92-111 | The level is never 'none'. It is 'strong' exactly for 16 or more characters with all four classes, and 'weak' or 'fair' under 8 characters |
| BrowserScript.GeneratePassword | script.js:55-90 | No checked box gives the message with level 'none'. Otherwise the level is the password's strength. A non-empty filtered charset gives `length` charset characters, none excluded. An empty one gives "undefined" repeated `length` times |
| BrowserScript.UndefinedFillerRatedFair | script.js:76-89 | The upper-case-only selection with every upper-case letter excluded has an empty charset. Its "undefined" filler, from length 2 on, is rated 'fair' |
| BrowserScript.UpperExcludedEmptiesPool | script.js:70-79 | Excluding the whole upper-case alphabet empties the upper-case-only charset |
| BrowserScript.RepeatLower | script.js:85 | Every character of a repeated lower-case word is lower case |
| BrowserScript.GeneratePasswordGuarded | script.js:55-90 | The corrected script refuses an empty filtered charset with a message rated 'none'. Otherwise it yields `length` charset characters with their level |
| BrowserScript.LevelMatchesWebLabel | script.js:92-111 | The script's level equals the server's label on all text not beginning "Error:", and differs on text that does |
| DesktopForm.SeedCount | password_generator_gui.py:183-190 | At most 4 seeds; none exactly when the pool is empty |
| DesktopForm.CoversContained | password_generator_gui.py:199-203 | A class covered by the seeds stays covered after filling and shuffling |
| DesktopForm.PermutationWithin | password_generator_gui.py:203 | Shuffling keeps every character in the pool |
| DesktopForm.OthersEmpty | password_generator_gui.py:212 | The pool has no character other than c exactly when it is c repeated, which is when `random.choice([])` raises |
| DesktopForm.SeedCategories | password_generator_gui.py:180-190 | One seed per enabled, non-empty alphabet, each from an enabled alphabet. The seed of each category sits after the seeds of the categories before it |
| DesktopForm.RepairRepeats | password_generator_gui.py:209-213 | The repair raises exactly when the pool is one character repeated and the buffer has two or more characters. Otherwise it keeps the length and the pool membership and leaves no two equal neighbours. A position it changes is never the first, and the buffer's character there survives just before it |
| DesktopForm.PrefixRepaired | password_generator_gui.py:215 | Cutting the repaired string and the buffer at the same length keeps that relation |
| DesktopForm.CoversRepaired | password_generator_gui.py:209-213 | The repair never loses an alphabet the buffer covers |
| DesktopForm.CoversEnabledRepaired | password_generator_gui.py:209-213 | The repair keeps the coverage of every enabled, non-empty category |
| DesktopForm.FillAndShuffle | password_generator_gui.py:193-203 | The buffer has `max(length, seeds)` pool characters and contains every seed |
| DesktopForm.FilterAlphabets | password_generator_gui.py:149-153 | Each alphabet becomes itself without the excluded characters, whether or not the exclusion text is empty |
| DesktopForm.GenerateSecurePassword | password_generator_gui.py:178-215 | Covers both outcomes of the secure generator. On success: exactly `length` pool characters, no two equal neighbours, related to the first `length` characters of the shuffled buffer by the repair. When `length` is at least the number of seeds, the password holds a character of every enabled, non-empty category. It raises exactly when the pool is one character repeated and the buffer has two or more characters |
| DesktopForm.PrefixNoRepeat | password_generator_gui.py:215 | Truncating a string without equal neighbours keeps that property |
| DesktopForm.SeedsCoverEnabled | password_generator_gui.py:183-190 | The seeds cover every enabled category whose alphabet is non-empty |
| DesktopForm.CoversEnabledContained | password_generator_gui.py:199-203 | Coverage of the enabled categories survives filling and shuffling |
| DesktopForm.Score8 | password_generator_gui.py:219-235 | The score is at most 8. It is the 7-point score plus one exactly when no two neighbours are equal, and equals it exactly when two are |
| DesktopForm.Label8 | password_generator_gui.py:238-251 | Every score gets one of the four labels |
| DesktopForm.Label8Bands | password_generator_gui.py:238-251 | For scores 0 to 8 the percentage thresholds are the whole-point bands 0-3 Weak, 4-5 Fair, 6-7 Good, 8 Strong |
| DesktopForm.Label8Monotone | password_generator_gui.py:238-251 | A higher score never gets a lower label |
| DesktopForm.SecureOutputEarnsRepeatPoint | password_generator_gui.py:234-235 | A password without equal neighbours earns the eighth point. With 16 or more characters and all four classes it is Strong |
| DesktopForm.NotAllSame | password_generator_gui.py:212 | A string holding two different characters is not one character repeated |
| DesktopForm.Filtered | password_generator_gui.py:149-153 | `Without` by the characters of the exclusion text: a character stays in a filtered alphabet exactly when it is in the alphabet and not in the exclusion text |
| DesktopForm.ProducePassword | password_generator_gui.py:127-176 | No category and an empty pool are refusals with their dialog texts. Only a one-character pool under the security rules is caught as "An error occurred: ...", and from length 2 it always is. A success has `length` pool characters. Under the rules it has no equal neighbours and, from length 4, a character of every enabled alphabet the exclusions leave non-empty |
| DesktopForm.SelectionClasses | password_generator_gui.py:182-190 | A password covering the selection has the character class of every enabled alphabet that the exclusions leave non-empty |
| DesktopForm.MixedPoolUsable | password_generator_gui.py:18-24 | With both letter cases enabled and neither 'A' nor 'a' excluded, the pool is neither empty nor one character repeated |
| DesktopForm.Form.constructor | password_generator_gui.py:16-26 | The form starts with length 12, every category, no exclusions and the rules on. It shows a 12-character pool password without equal neighbours. The password holds all four classes, so it scores 7 of 8 and is rated Good |
| DesktopForm.Form.FirstGeneration | password_generator_gui.py:122 | The first generation with every category on and 'A', 'a', '0' and '!' not excluded returns no dialog. It displays a rule-abiding pool password with all four classes and its strength |
| DesktopForm.Form.AnalyzePasswordStrength | password_generator_gui.py:217-251 | The displayed score is the 8-point score and the displayed label its label |
| DesktopForm.Form.GeneratePassword | password_generator_gui.py:127-176 | Each dialog arises exactly under its condition and leaves the displayed password and strength unchanged. Otherwise it displays `length` pool characters with their score and label. Under the rules the password has no equal neighbours and a character of every enabled alphabet the exclusions leave non-empty |
| DesktopForm.Form.Show | password_generator_gui.py:172-176 | A produced password is displayed with its 8-point score and label; a refusal or caught exception becomes its error dialog and changes nothing |

## Left out

- Widget layout, styles, progress-bar colours, the clipboard buttons, Flask routes and JSON marshalling, DOM lookup and `updateStrengthIndicator`, and `main`: presentation, foreign I/O and glue. A dialog is returned as a value instead of being displayed.
- Randomness quality: no claim is made about the uniformity or unpredictability of the draws, the shuffle or the repair's replacement character.
- Character classes are the ASCII ones. Python's Unicode `islower`, `isupper`, `isdigit` and `isalnum` are not modelled. They agree with the ASCII classes on strings drawn from the four alphabets.
- The desktop form's percentage `(score / 8) * 100` is modelled with exact real numbers. Floating-point rounding is not modelled; every multiple of 1/8 is exact in binary floating point anyway.
- `Math.random` arithmetic in the browser script is replaced by an arbitrary in-range index.
- Exceptions in the desktop form other than the `random.choice` on an empty list in the repair step are not modelled (for example a non-integer length in the Tk variable).
- `generate_secure_password` is modelled as a module-level method because it reads no state of the form.
- DesktopForm.ProducePassword: takes a non-negative length, and for lengths 0 and 1, which the slider never produces, it does not say whether a one-character pool under the security rules raises. Python's slicing with a negative length is not modelled.
- DesktopForm.GenerateSecurePassword: coverage of every enabled category by the returned password is stated only when `length` is at least the number of seeds. Below that, `password[:length]` can cut seeds off.

## Findings

| source | as written | input that shows it | evidently intended | confidence | as-written member | corrected member |
|---|---|---|---|---|---|---|
| script.js:76-86 | An empty charset after exclusions is not checked. Every draw reads `charset[0]`, which is `undefined`, so the output is the word "undefined" repeated, and it is rated 'fair' | Only "uppercase" checked, exclude `ABCDEFGHIJKLMNOPQRSTUVWXYZ`, length 12 | Refuse the request with a message rated 'none', as the server does at app.py:39-40 | high; not executed | BrowserScript.UndefinedFillerRatedFair | BrowserScript.GeneratePasswordGuarded |
| app.py:53-54 | Any text beginning "Error:" is rated "None", including a drawn password, since `E`, `r`, `o` and `:` are all in the default charset | The drawn password "Error:Ab1xyz" for the default request of length 12 with every category and nothing excluded | Rate "None" only for the two refusals, telling them apart from passwords by kind rather than by text | low; not executed | WebApp.ErrorPrefixedPasswordUnrated | WebApp.RateOutcome |
