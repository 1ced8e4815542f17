/**
 * Password ("clave") validation rules of validador01.py.
 *
 * Every rule runs its checks in a fixed order and stops at the first one that
 * fails. The source raises one exception class per failed check and returns
 * True otherwise; here the outcome is the value `Resultado`, `Ok` for True and
 * `Err(e)` for the exception whose class corresponds to `e`.
 */
module Validador01 {
  import opened Wrappers
  import opened PyStr

  /** The six exception classes imported from the `errores` module. */
  datatype ErrorValidacion =
    | NoCumpleLongitudMinima
    | NoTieneLetraMayuscula
    | NoTieneLetraMinuscula
    | NoTieneNumero
    | NoTieneCaracterEspecial
    | NoTienePalabraSecreta

  /** What `es_valida` produces: it returns True, or it raises exactly one error. */
  datatype Resultado = Ok | Err(error: ErrorValidacion)

  /** The special characters the Ganimedes rule asks for. */
  const ESPECIALES: string := "@_#$%"

  /** The secret word the Calisto rule looks for, written in lower case. */
  const PALABRA_SECRETA: string := "calisto"

  // ---------------------------------------------------------------------------
  // Specification vocabulary: the character classes and the secret-word
  // condition stated directly over indices of the key.

  ghost predicate TieneMayuscula(clave: string) {
    exists i :: 0 <= i < |clave| && IsUpper(clave[i])
  }

  ghost predicate TieneMinuscula(clave: string) {
    exists i :: 0 <= i < |clave| && IsLower(clave[i])
  }

  ghost predicate TieneNumero(clave: string) {
    exists i :: 0 <= i < |clave| && IsDigit(clave[i])
  }

  ghost predicate TieneEspecial(clave: string) {
    exists i :: 0 <= i < |clave| && clave[i] in {'@', '_', '#', '$', '%'}
  }

  /** The secret word occurs at `p` when the key's characters there, lower-cased, spell it. */
  ghost predicate CoincideEn(clave: string, p: nat) {
    p + |PALABRA_SECRETA| <= |clave| && Lower(clave[p..p + |PALABRA_SECRETA|]) == PALABRA_SECRETA
  }

  /** `p` is the leftmost case-insensitive occurrence of the secret word. */
  ghost predicate EsPrimeraCoincidencia(clave: string, p: nat) {
    CoincideEn(clave, p) && forall q :: 0 <= q < p ==> !CoincideEn(clave, q)
  }

  /** Number of offsets among the 7 original-case characters starting at `p` that hold an upper-case letter. */
  ghost function MayusculasEnVentana(clave: string, p: nat): nat
    requires p + 7 <= |clave|
  {
    var ventana := clave[p..p + 7];
    |set k: nat | k < 7 && IsUpper(ventana[k])|
  }

  /**
   * The secret-word condition: the leftmost occurrence exists and its window
   * holds between 2 and 6 upper-case letters.
   */
  ghost predicate PalabraSecretaAceptable(clave: string) {
    exists p :: EsPrimeraCoincidencia(clave, p) && 2 <= MayusculasEnVentana(clave, p) <= 6
  }

  // ---------------------------------------------------------------------------
  // ReglaValidacion: the shared helpers.

  /** `_contiene_mayuscula`. */
  function ContieneMayuscula(clave: string): (r: bool)
    ensures r <==> TieneMayuscula(clave)
  {
    Any(clave, IsUpper)
  }

  /** `_contiene_minuscula`. */
  function ContieneMinuscula(clave: string): (r: bool)
    ensures r <==> TieneMinuscula(clave)
  {
    Any(clave, IsLower)
  }

  /** `_contiene_numero`. */
  function ContieneNumero(clave: string): (r: bool)
    ensures r <==> TieneNumero(clave)
  {
    Any(clave, IsDigit)
  }

  /** `ReglaValidacionGanimedes.contiene_caracter_especial`. */
  function ContieneCaracterEspecial(clave: string): (r: bool)
    ensures r <==> TieneEspecial(clave)
  {
    Any(clave, c => c in ESPECIALES)
  }

  /** Finding the word in the lower-cased key is finding it case-insensitively in the key. */
  lemma CoincidenciaEnMinusculas(clave: string, p: nat)
    ensures OccursAt(Lower(clave), PALABRA_SECRETA, p) <==> CoincideEn(clave, p)
  {
    if p + 7 <= |clave| {
      assert Lower(clave)[p..p + 7] == Lower(clave[p..p + 7]);
    }
  }

  /**
   * `ReglaValidacionCalisto.contiene_calisto`: locate the first occurrence of
   * "calisto" in the lower-cased key, then count the upper-case letters among
   * the 7 original characters at that position.
   */
  function ContieneCalisto(clave: string): bool {
    var posicion := Find(Lower(clave), PALABRA_SECRETA);
    match posicion
    case None => false
    case Some(p) =>
      var substring := clave[p..p + 7];
      var mayusculas := CountIf(substring, IsUpper);
      !(mayusculas < 2 || mayusculas == 7)
  }

  /** Counting the window the way the source does gives the number of its upper-case offsets. */
  lemma CuentaVentana(clave: string, p: nat)
    requires p + 7 <= |clave|
    ensures CountIf(clave[p..p + 7], IsUpper) == MayusculasEnVentana(clave, p)
  {
    var ventana := clave[p..p + 7];
    CountIfIndices(ventana, IsUpper);
    assert IndicesFrom(ventana, IsUpper, 0) == set k: nat | k < 7 && IsUpper(ventana[k]);
  }

  /**
   * The secret-word check passes exactly when the leftmost case-insensitive
   * occurrence exists and its window has 2 to 6 upper-case letters; with no
   * occurrence it fails, and a later occurrence is never looked at.
   */
  lemma ContieneCalistoCorrecto(clave: string)
    ensures ContieneCalisto(clave) <==> PalabraSecretaAceptable(clave)
    ensures (forall p: nat :: !CoincideEn(clave, p)) ==> !ContieneCalisto(clave)
    ensures forall p: nat :: EsPrimeraCoincidencia(clave, p) ==>
              (ContieneCalisto(clave) <==> 2 <= MayusculasEnVentana(clave, p) <= 6)
  {
    PrimeraCoincidenciaFind(clave);
    match Find(Lower(clave), PALABRA_SECRETA)
    case None =>
    case Some(p) => CuentaVentana(clave, p);
  }

  /** The result of the search is exactly the leftmost case-insensitive occurrence. */
  lemma PrimeraCoincidenciaFind(clave: string)
    ensures Find(Lower(clave), PALABRA_SECRETA).None? <==> forall p: nat :: !CoincideEn(clave, p)
    ensures forall p: nat :: Find(Lower(clave), PALABRA_SECRETA) == Some(p) <==> EsPrimeraCoincidencia(clave, p)
  {
    FindLowest(Lower(clave), PALABRA_SECRETA);
    forall p: nat ensures OccursAt(Lower(clave), PALABRA_SECRETA, p) <==> CoincideEn(clave, p) {
      CoincidenciaEnMinusculas(clave, p);
    }
  }

  // ---------------------------------------------------------------------------
  // The rules.

  /**
   * `ReglaValidacion` and its two concrete subclasses. Each subclass fixes
   * the minimum length it passes to the base constructor.
   */
  datatype ReglaValidacion = Ganimedes | Calisto {

    /** `_longitud_esperada`, set once by the constructor. */
    function LongitudEsperada(): nat {
      match this
      case Ganimedes => 8
      case Calisto => 6
    }

    /** `_validar_longitud`. */
    function ValidarLongitud(clave: string): bool {
      !(|clave| < LongitudEsperada())
    }

    /**
     * `es_valida`, dispatched to the concrete rule. Whatever the rule, a key
     * shorter than its minimum length gets the length error, and only such a key.
     */
    function EsValida(clave: string): (r: Resultado)
      ensures r == Err(NoCumpleLongitudMinima) <==> |clave| < LongitudEsperada()
    {
      match this
      case Ganimedes => EsValidaGanimedes(clave)
      case Calisto => EsValidaCalisto(clave)
    }
  }

  /** `ReglaValidacionGanimedes.es_valida`. */
  function EsValidaGanimedes(clave: string): Resultado {
    if !Ganimedes.ValidarLongitud(clave) then Err(NoCumpleLongitudMinima)
    else if !ContieneMayuscula(clave) then Err(NoTieneLetraMayuscula)
    else if !ContieneMinuscula(clave) then Err(NoTieneLetraMinuscula)
    else if !ContieneNumero(clave) then Err(NoTieneNumero)
    else if !ContieneCaracterEspecial(clave) then Err(NoTieneCaracterEspecial)
    else Ok
  }

  /**
   * The Ganimedes rule accepts exactly the keys of length at least 8 with an
   * upper-case letter, a lower-case letter, a digit and a special character;
   * otherwise it reports the first missing requirement in the order length,
   * upper case, lower case, digit, special character, and never the
   * secret-word error.
   */
  lemma GanimedesPrioridad(clave: string)
    ensures EsValidaGanimedes(clave) == Ok <==>
              |clave| >= 8 && TieneMayuscula(clave) && TieneMinuscula(clave)
              && TieneNumero(clave) && TieneEspecial(clave)
    ensures EsValidaGanimedes(clave) == Err(NoCumpleLongitudMinima) <==> |clave| < 8
    ensures EsValidaGanimedes(clave) == Err(NoTieneLetraMayuscula) <==>
              |clave| >= 8 && !TieneMayuscula(clave)
    ensures EsValidaGanimedes(clave) == Err(NoTieneLetraMinuscula) <==>
              |clave| >= 8 && TieneMayuscula(clave) && !TieneMinuscula(clave)
    ensures EsValidaGanimedes(clave) == Err(NoTieneNumero) <==>
              |clave| >= 8 && TieneMayuscula(clave) && TieneMinuscula(clave) && !TieneNumero(clave)
    ensures EsValidaGanimedes(clave) == Err(NoTieneCaracterEspecial) <==>
              |clave| >= 8 && TieneMayuscula(clave) && TieneMinuscula(clave)
              && TieneNumero(clave) && !TieneEspecial(clave)
    ensures EsValidaGanimedes(clave) != Err(NoTienePalabraSecreta)
  {
  }

  /** `ReglaValidacionCalisto.es_valida`. */
  function EsValidaCalisto(clave: string): Resultado {
    if !Calisto.ValidarLongitud(clave) then Err(NoCumpleLongitudMinima)
    else if !ContieneNumero(clave) then Err(NoTieneNumero)
    else if !ContieneCalisto(clave) then Err(NoTienePalabraSecreta)
    else Ok
  }

  /**
   * The Calisto rule accepts exactly the keys of length at least 6 with a
   * digit whose secret-word condition holds; otherwise it reports the first
   * missing requirement in the order length, digit, secret word, and never
   * one of the Ganimedes-only errors.
   */
  lemma CalistoPrioridad(clave: string)
    ensures EsValidaCalisto(clave) == Ok <==>
              |clave| >= 6 && TieneNumero(clave) && PalabraSecretaAceptable(clave)
    ensures EsValidaCalisto(clave) == Err(NoCumpleLongitudMinima) <==> |clave| < 6
    ensures EsValidaCalisto(clave) == Err(NoTieneNumero) <==> |clave| >= 6 && !TieneNumero(clave)
    ensures EsValidaCalisto(clave) == Err(NoTienePalabraSecreta) <==>
              |clave| >= 6 && TieneNumero(clave) && !PalabraSecretaAceptable(clave)
    ensures EsValidaCalisto(clave) != Err(NoTieneLetraMayuscula)
    ensures EsValidaCalisto(clave) != Err(NoTieneLetraMinuscula)
    ensures EsValidaCalisto(clave) != Err(NoTieneCaracterEspecial)
  {
    ContieneCalistoCorrecto(clave);
  }

  /** `Validador`: holds one rule, set by its constructor, and forwards to it. */
  datatype Validador = Validador(regla: ReglaValidacion) {

    /** `Validador.es_valida`. */
    function EsValida(clave: string): (r: Resultado)
      ensures r == regla.EsValida(clave)
      ensures r == Err(NoCumpleLongitudMinima) <==> |clave| < regla.LongitudEsperada()
    {
      regla.EsValida(clave)
    }
  }
}
