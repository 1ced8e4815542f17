# Password rules of `validador01.py`, modelled in Dafny

`validador01.py` checks candidate passwords ("claves") against one of two
rules and either accepts the key or reports the first requirement it misses:

- `ReglaValidacion` is the base rule. It stores the expected minimum length and
  offers four helpers: a length check and "contains an upper-case letter / a
  lower-case letter / a digit".
- `ReglaValidacionGanimedes` (minimum length 8) asks, in this order, for the
  length, an upper-case letter, a lower-case letter, a digit and one of
  `@ _ # $ %`.
- `ReglaValidacionCalisto` (minimum length 6) asks, in this order, for the
  length, a digit and the secret word. The secret-word check finds the first
  case-insensitive occurrence of `calisto`. It counts the upper-case letters
  among the 7 original characters there. It passes only when that count is at
  least 2 and not 7.
- `Validador` holds one rule and forwards `es_valida` to it.

The model is purely functional, as the source is:

- `wrappers.dfy` defines `Option`.
- `pystr.dfy` (module `PyStr`) gives ASCII versions of the Python string
  operations the rules use: `isupper`, `islower`, `isdigit`, `lower`, `any`,
  `sum` over a filter, and `find`. Each recursive definition is followed by a
  lemma stating what it computes: an existential over indices for `any`, the
  number of qualifying indices for `sum`, the lowest occurrence for `find`.
- `validador01.dfy` (module `Validador01`) holds the rules. The six exception
  classes become the datatype `ErrorValidacion`. "Returns True or raises `E`"
  becomes `Resultado = Ok | Err(E)`. The two concrete rules are the datatype
  `ReglaValidacion = Ganimedes | Calisto`, and the facade is the datatype
  `Validador`. What each rule promises is stated with ghost predicates over the
  indices of the key (`TieneMayuscula`, `EsPrimeraCoincidencia`, the window
  count `MayusculasEnVentana` as the size of a set of offsets,
  `PalabraSecretaAceptable`, ...), and lemmas tie the executable functions to
  them.
- `propiedades.dfy` (module `Propiedades`) holds properties that follow from
  the rules, and the outcome on particular keys.

Two of these facts are worth noting:

- A key the Calisto rule accepts always has at least 8 characters. The 7 letters
  of the word cannot hold the required digit, so the configured minimum of 6
  never decides the outcome of an accepted key.
- The window of `"abc123CaLiStO"` holds 4 upper-case letters (C, L, S and O).

## Model

| member | source | states |
|---|---|---|
| `PyStr.IsUpper` | validador01.py:21 | `c.isupper()` on ASCII: true exactly for `'A'..'Z'`; the partner `PyStr.ToLower` states that these are the characters lower-casing changes |
| `PyStr.IsLower` | validador01.py:26 | `c.islower()` on ASCII: true exactly for `'a'..'z'`; the partner `PyStr.ToLower` states that lower-casing yields a lower-case letter exactly from a letter |
| `PyStr.IsDigit` | validador01.py:31 | `c.isdigit()` on ASCII: true exactly for `'0'..'9'`; `Propiedades.CoincidenciaSinDigitos` relies on no letter being a digit |
| `PyStr.Lower` | validador01.py:67 | `str.lower()`: the same length, each character mapped by `ToLower`; the partner `Validador01.CoincidenciaEnMinusculas` states that an occurrence in the lower-cased key is a case-insensitive occurrence in the key |
| `PyStr.ToLower` | validador01.py:67 | lower-casing maps exactly the ASCII upper-case letters to lower-case letters and keeps every other character; the result is a lower-case letter iff the input is a letter |
| `PyStr.AnyFromExists` | validador01.py:21 | the search from an index answers true iff some character at or after that index satisfies the test |
| `PyStr.Any` | validador01.py:21 | `any(...)` over the characters is true iff some index holds a character satisfying the test |
| `PyStr.CountFromBounds` | validador01.py:72 | the count from an index is at most the number of characters left; it is 0 iff none qualifies and the full number iff all qualify |
| `PyStr.CountFromIndices` | validador01.py:72 | the count from an index equals the number of indices at or after it whose character qualifies |
| `PyStr.CountIf` | validador01.py:72 | `sum(1 for c in s if ...)` is at most `len(s)`; it is 0 iff no character qualifies and `len(s)` iff every character does; its exact value is stated by `PyStr.CountIfIndices` |
| `PyStr.CountIfIndices` | validador01.py:72 | `sum(1 for c in s if ...)` equals the number of indices of `s` whose character qualifies |
| `PyStr.CountIfAtLeastTwo` | validador01.py:72-74 | the sum is at least 2 iff two different indices hold qualifying characters, the boundary `mayusculas < 2` tests |
| `PyStr.MatchesFromAll` | validador01.py:67 | comparing from offset k succeeds iff every pattern character from k on equals the key character at the same offset |
| `PyStr.MatchesFromOccurs` | validador01.py:67 | comparing from offset 0 succeeds iff the pattern occurs at that index |
| `PyStr.FindFromLowest` | validador01.py:67 | the search from an index answers the lowest occurrence at or after it, or none when no occurrence exists there |
| `PyStr.Find` | validador01.py:67 | `str.find`: a found index leaves room for the whole pattern; the partner `PyStr.FindLowest` states that it is the lowest occurrence, and None (Python's -1) iff there is none |
| `PyStr.FindLowest` | validador01.py:67-68 | `find` answers an index where the pattern occurs with no occurrence before it, and answers -1 (None) iff the pattern occurs nowhere |
| `Validador01.ContieneMayuscula` | validador01.py:20-23 | true iff some character of the key is an upper-case letter |
| `Validador01.ContieneMinuscula` | validador01.py:25-28 | true iff some character of the key is a lower-case letter |
| `Validador01.ContieneNumero` | validador01.py:30-33 | true iff some character of the key is a digit |
| `Validador01.ContieneCaracterEspecial` | validador01.py:43-47 | true iff some character of the key is one of `@ _ # $ %` |
| `Validador01.CoincidenciaEnMinusculas` | validador01.py:67 | the word occurs at p in the lower-cased key iff the 7 key characters at p, lower-cased, spell `calisto` |
| `Validador01.PrimeraCoincidenciaFind` | validador01.py:67-69 | the search in the lower-cased key finds nothing iff no case-insensitive occurrence exists, and finds p iff p is the leftmost occurrence |
| `Validador01.CuentaVentana` | validador01.py:71-72 | counting the upper-case letters of the slice `clave[p:p+7]` gives the number of window offsets holding an upper-case letter |
| `Validador01.ContieneCalisto` | validador01.py:66-76 | `contiene_calisto`: searches the lower-cased key, returns False when nothing is found, and otherwise counts the upper-case letters of the original 7-character window and returns False for a count below 2 or equal to 7; the partner `Validador01.ContieneCalistoCorrecto` states the outcome over all keys |
| `Validador01.ContieneCalistoCorrecto` | validador01.py:66-76 | the secret-word check passes iff the leftmost case-insensitive occurrence exists and its 7 original characters hold 2 to 6 upper-case letters; with no occurrence it fails; at the leftmost occurrence the outcome depends on that window alone |
| `Validador01.ReglaValidacion.LongitudEsperada` | validador01.py:12-13 | `_longitud_esperada` is fixed by the subclass constructor: 8 for Ganimedes (line 41), 6 for Calisto (line 64); the partner `Validador01.ReglaValidacion.EsValida` states that this minimum decides the length error |
| `Validador01.ReglaValidacion.ValidarLongitud` | validador01.py:15-18 | `_validar_longitud`: False iff the key is shorter than the rule's minimum; the partner `Validador01.ReglaValidacion.EsValida` states that exactly those keys get the length error |
| `Validador01.ReglaValidacion.EsValida` | validador01.py:35-37 | the abstract `es_valida`, dispatched to the concrete rule: for either rule the length error is reported iff the key is shorter than that rule's minimum (8 or 6), whatever the content, as lines 50-51 and 79-80 check it first |
| `Validador01.EsValidaGanimedes` | validador01.py:49-60 | `ReglaValidacionGanimedes.es_valida`: the checks length, upper, lower, digit, special in that order, the first failure giving its error; the partner `Validador01.GanimedesPrioridad` states acceptance and each error as an iff over all keys |
| `Validador01.GanimedesPrioridad` | validador01.py:49-60 | Ganimedes accepts iff length >= 8 and there are an upper-case letter, a lower-case letter, a digit and a special character; each error is reported iff every earlier check passes and its own fails (length, upper, lower, digit, special); never the secret-word error |
| `Validador01.EsValidaCalisto` | validador01.py:78-85 | `ReglaValidacionCalisto.es_valida`: the checks length, digit, secret word in that order, the first failure giving its error; the partner `Validador01.CalistoPrioridad` states acceptance and each error as an iff over all keys |
| `Validador01.CalistoPrioridad` | validador01.py:78-85 | Calisto accepts iff length >= 6, a digit exists and the secret-word condition holds; each error is reported iff the earlier checks pass and its own fails (length, digit, secret word); never an upper, lower or special error |
| `Validador01.Validador.EsValida` | validador01.py:87-92 | the facade returns exactly the held rule's outcome, so its length error appears iff the key is shorter than the held rule's minimum |
| `Propiedades.CoincidenciaSinDigitos` | validador01.py:67-71 | no character of a case-insensitive occurrence of `calisto` is a digit |
| `Propiedades.CalistoDosMayusculasYUnaNo` | validador01.py:71-76 | at the leftmost occurrence, the secret-word check passes iff its window holds upper-case letters at two different positions and at least one character that is not upper case |
| `Propiedades.CalistoAceptadaTieneOcho` | validador01.py:78-85 | every key the Calisto rule accepts has at least 8 characters |
| `Propiedades.GanimedesAcepta` | validador01.py:49-60 | `"Abcdef1$"` is accepted by Ganimedes |
| `Propiedades.GanimedesSinMayuscula` | validador01.py:52-53 | `"abcdef1$"` gets the upper-case error |
| `Propiedades.GanimedesCorta` | validador01.py:50-51 | `"A1"` gets the length error |
| `Propiedades.GanimedesTodoFalta` | validador01.py:52-53 | eight spaces, lacking every class, get the upper-case error first |
| `Propiedades.CalistoSinNumero` | validador01.py:81-82 | `"calisto"` passes the length check and gets the digit error |
| `Propiedades.CalistoSinPalabra` | validador01.py:66-69 | `"CalistA12"`, with no occurrence of the word, gets the secret-word error |
| `Propiedades.CalistoAcepta` | validador01.py:71-76 | `"abc123CaLiStO"` is accepted (window count 4) |
| `Propiedades.CalistoTodoMayusculas` | validador01.py:74-75 | `"abc123CALISTO"` gets the secret-word error (window count 7) |
| `Propiedades.CalistoUnaMayuscula` | validador01.py:74-75 | `"1Calisto"` gets the secret-word error (window count 1) |
| `Propiedades.CalistoDosMayusculas` | validador01.py:74-76 | `"1CaListo"` is accepted (window count 2) |
| `Propiedades.CalistoSoloPrimera` | validador01.py:67-76 | `"calisto1CaLiStO"` gets the secret-word error: its first window has count 0, and the later window with count 4 is never examined |

## Left out

- The `errores` module (validador01.py:2-9) is not part of this model. Its six exception classes are the variants of `ErrorValidacion`, returned inside `Resultado` instead of raised.
- The human-readable messages carried by the exceptions are left out; they have no behaviour.
- Character classes and `lower()` cover ASCII only. Python's `isupper`, `islower`, `isdigit` and `lower` follow Unicode, where for instance `'É'.isupper()` holds and `'²'.isdigit()` holds. For some characters `lower()` also changes the length of the string, which would misalign the index found in the lower-cased key with the slice of the original one.
- Python's `ABC`/`abstractmethod` machinery is left out. `Validador` can hold only the two concrete rules, not an arbitrary object with an `es_valida` method.
- Python's slice `clave[posicion:posicion+7]` would clamp at the end of the string; the model proves instead that a found occurrence always leaves 7 characters, so no clamping is needed.
- Rules and the facade are immutable values. That validation changes no stored state, the minimum length included, and that repeated calls give the same outcome therefore hold by construction and carry no lemma.
