# Password strength checker — a verified model

This project models the password-strength widget of the React demo
application: the classifier `checkStrength`, the colour lookup
`getStrengthColor`, and the component's two state variables `password` and
`strength`, which the input's change handler `handleChange` keeps in step.

`checkStrength` tests a password against five independent criteria — at least
8 characters, an ASCII digit, an upper-case letter `A`–`Z`, a lower-case letter
`a`–`z`, and one of the twenty special characters of the bracket expression
`[!@#$%^&*(),.?":{}|<>]` — counts how many hold with
`[...].filter(Boolean).length`, and maps that count to a label: 5 is
`Very Strong`, 4 `Strong`, 3 `Moderate`, 2 `Weak`, and anything else (0 or 1)
`Very Weak`. `getStrengthColor` maps those five labels to green, blue, orange,
red and dark red, and every other string to black.

Everything lives in one module, `PasswordStrength`, in `password_strength.dfy`:

- each regular expression `/[...]/.test(s)` is a left-to-right scan `Test` for
  a character of a `CharClass` (`Digit`, `Upper`, `Lower`, `Special`), proved
  equal to "some position of `s` holds such a character";
- `filter(Boolean)` is `FilterTrue`, proved to keep every `true` entry and
  nothing else, and the number of criteria met is
  `CriteriaMet`, proved to be between 0 and 5 and equal to the sum of one
  indicator per criterion;
- the five outcomes are the datatype `Strength`, ordered by `Rank` (Very Weak
  < Weak < Moderate < Strong < Very Strong), with `Label` the displayed string;
  `StrengthOf` is the `switch` and `CheckStrength` the whole classifier, which
  returns a string as the component does;
- the component state is the class `PasswordStrengthChecker` with the fields
  `password` and `strength`; the predicate `Consistent` says that `strength`
  is the rating of `password`. It does not hold initially (both fields are
  `''`, and `''` is not `Very Weak`) and holds after every `HandleChange`.

## Model

| member | source | states |
|---|---|---|
| `PasswordStrength.Matches` | src/PasswordStrengthChecker.js:11-14 | the four bracket expressions `[0-9]`, `[A-Z]`, `[a-z]` and the twenty special characters; every character they match is ASCII |
| `PasswordStrength.ClassesDisjoint` | src/PasswordStrengthChecker.js:14 | the special-character class has exactly twenty members, and no character belongs to two of the four classes |
| `PasswordStrength.Test` | src/PasswordStrengthChecker.js:11-14 | a regular-expression character-class test is true exactly when some position of the string holds a character of the class |
| `PasswordStrength.TestExtends` | src/PasswordStrengthChecker.js:11-14 | a character class found in a string is still found after text is appended |
| `PasswordStrength.FilterTrue` | src/PasswordStrengthChecker.js:16 | `filter(Boolean)` keeps only `true` entries and never more entries than it was given |
| `PasswordStrength.FilterTrueCount` | src/PasswordStrengthChecker.js:16 | every `true` entry is kept: the length of `filter(Boolean)` is the number of occurrences of `true`, for any input |
| `PasswordStrength.FilterTrueAppend` | src/PasswordStrengthChecker.js:16 | filtering a concatenation is the concatenation of the filtered parts |
| `PasswordStrength.FilterTrueMonotone` | src/PasswordStrengthChecker.js:16 | making entries true position by position never lowers the number of entries kept |
| `PasswordStrength.Criteria` | src/PasswordStrengthChecker.js:10-16 | the array of criteria has exactly five entries, one per criterion |
| `PasswordStrength.CriteriaMet` | src/PasswordStrengthChecker.js:10-16 | the number of criteria met is between 0 and 5 and equals the sum of one 0/1 indicator per criterion (length, digit, upper, lower, special) |
| `PasswordStrength.CriteriaExtend` | src/PasswordStrengthChecker.js:10-14 | every criterion a password meets is still met after characters are appended |
| `PasswordStrength.Strength.Rank` | src/PasswordStrengthChecker.js:18-33 | the five ratings occupy positions 0 to 4, Very Weak lowest and Very Strong highest |
| `PasswordStrength.Strength.Label` | src/PasswordStrengthChecker.js:20-32 | each rating is displayed as a non-empty label string |
| `PasswordStrength.LabelInjective` | src/PasswordStrengthChecker.js:18-33 | the five ratings are displayed as five different strings |
| `PasswordStrength.StrengthOf` | src/PasswordStrengthChecker.js:18-33 | for a count of at most 5, counts 0 and 1 give the lowest rating and each further criterion raises it one step; counts above 5 fall to the default, Very Weak |
| `PasswordStrength.StrengthOfMonotone` | src/PasswordStrengthChecker.js:18-33 | within the reachable counts 0..5, a larger count never gives a lower rating |
| `PasswordStrength.Classify` | src/PasswordStrengthChecker.js:16-33 | the chosen rating is Very Weak for 0 or 1 criteria met and one step higher for each further criterion |
| `PasswordStrength.CheckStrength` | src/PasswordStrengthChecker.js:8-36 | the result is always one of the five labels |
| `PasswordStrength.CheckStrengthByCount` | src/PasswordStrengthChecker.js:16-33 | the count alone decides the label, in both directions: Very Strong iff 5, Strong iff 4, Moderate iff 3, Weak iff 2, Very Weak iff 0 or 1 |
| `PasswordStrength.EmptyIsVeryWeak` | src/PasswordStrengthChecker.js:10-32 | the empty password meets no criterion and is rated Very Weak |
| `PasswordStrength.ShortNeverVeryStrong` | src/PasswordStrengthChecker.js:10-20 | a password shorter than 8 characters meets at most 4 criteria and is never Very Strong |
| `PasswordStrength.AppendNeverWeakens` | src/PasswordStrengthChecker.js:10-33 | appending characters never lowers the count of criteria met nor the rating |
| `PasswordStrength.LowerCaseOnly` | src/PasswordStrengthChecker.js:11-14 | a string of lower-case letters contains no digit, upper-case letter or special character |
| `PasswordStrength.LowerCaseWordScans` | src/PasswordStrengthChecker.js:11-14 | "password" contains a lower-case letter and no digit, upper-case letter or special character |
| `PasswordStrength.LowerCaseWordIsWeak` | src/PasswordStrengthChecker.js:8-36 | "password" meets exactly 2 criteria and is rated Weak |
| `PasswordStrength.MixedWordIsVeryStrong` | src/PasswordStrengthChecker.js:8-36 | "Passw0rd!" meets all 5 criteria and is rated Very Strong |
| `PasswordStrength.GetStrengthColor` | src/PasswordStrengthChecker.js:61-76 | the colour is black exactly when the input is not one of the five labels |
| `PasswordStrength.ColorsDistinct` | src/PasswordStrengthChecker.js:61-76 | Very Strong is green, Strong blue, Moderate orange, Weak red, Very Weak dark red, and no two ratings share a colour |
| `PasswordStrength.PasswordStrengthChecker.constructor` | src/PasswordStrengthChecker.js:5-6 | both state variables start as `''`; that state is not consistent (`''` is not the rating of `''`) and shows in black |
| `PasswordStrength.PasswordStrengthChecker.HandleChange` | src/PasswordStrengthChecker.js:38-42 | afterwards `password` is the new value and `strength` its rating, so the state is consistent and its colour is not black; nothing else changes |

## Left out

- The JSX markup and inline styles of the component (src/PasswordStrengthChecker.js:44-58) are not modelled; the only link kept is that the displayed colour is `GetStrengthColor(strength)`, stated in the contracts of the constructor and of `HandleChange`.
- React's `useState` machinery: the two setters in `handleChange` are modelled as two assignments that take effect together, without React's batching or re-rendering.
- `PasswordStrength.CriteriaMet`: the length criterion counts Dafny characters (Unicode scalar values), whereas JavaScript's `.length` counts UTF-16 code units, so a password containing characters outside the Basic Multilingual Plane is shorter here than in the JavaScript source. The four character classes contain only ASCII characters, so their tests agree.
- General regular-expression semantics: each of the four expressions is a single bracket expression, modelled as membership in a character class.
- The initial value `'Weak'` of the local `strength` in `checkStrength` is overwritten on every path of the `switch` and is not modelled.
- backend/server.js and backend/server1.js (an HTTP proxy and a static file server over third-party libraries), src/component/EarthquakeMap.jsx (map construction through a foreign GIS toolkit), src/index.js and src/App.js (React bootstrapping and layout) are not part of this model: they are I/O and user-interface code with no logic of their own.
