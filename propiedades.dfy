/**
 * Properties of the validation rules of validador01.py that relate several
 * calls or fix the outcome on particular keys.
 */
module Propiedades {
  import opened Wrappers
  import opened PyStr
  import opened Validador01

  /** The characters of an occurrence of the secret word are letters, never digits. */
  lemma CoincidenciaSinDigitos(clave: string, p: nat, d: nat)
    requires CoincideEn(clave, p)
    requires p <= d < p + 7
    ensures !IsDigit(clave[d])
  {
    var ventana := clave[p..p + 7];
    assert ventana[d - p] == clave[d];
    assert Lower(ventana)[d - p] == PALABRA_SECRETA[d - p];
    assert IsLower(PALABRA_SECRETA[d - p]);
  }

  /**
   * A key the Calisto rule accepts has at least 8 characters, not just 6:
   * the 7 characters of the secret word are letters, so the required digit
   * lies outside them.
   */
  lemma CalistoAceptadaTieneOcho(clave: string)
    requires EsValidaCalisto(clave) == Ok
    ensures |clave| >= 8
  {
    assert ContieneNumero(clave) && ContieneCalisto(clave);
    ContieneCalistoCorrecto(clave);
    var d :| 0 <= d < |clave| && IsDigit(clave[d]);
    var p: nat :| EsPrimeraCoincidencia(clave, p) && 2 <= MayusculasEnVentana(clave, p) <= 6;
    if p <= d < p + 7 {
      CoincidenciaSinDigitos(clave, p, d);
    }
  }

  /** Two upper-case letters at different offsets of the window are two at different indices of the key. */
  lemma DosMayusculasEnVentana(clave: string, p: nat, ventana: string)
    requires p + 7 <= |clave| && ventana == clave[p..p + 7]
    ensures (exists i, j :: 0 <= i < j < |ventana| && IsUpper(ventana[i]) && IsUpper(ventana[j]))
            <==> (exists i, j :: p <= i < j < p + 7 && IsUpper(clave[i]) && IsUpper(clave[j]))
  {
    if exists i, j :: 0 <= i < j < |ventana| && IsUpper(ventana[i]) && IsUpper(ventana[j]) {
      var i, j :| 0 <= i < j < |ventana| && IsUpper(ventana[i]) && IsUpper(ventana[j]);
      assert p <= p + i < p + j < p + 7 && IsUpper(clave[p + i]) && IsUpper(clave[p + j]);
    }
    if exists i, j :: p <= i < j < p + 7 && IsUpper(clave[i]) && IsUpper(clave[j]) {
      var i, j :| p <= i < j < p + 7 && IsUpper(clave[i]) && IsUpper(clave[j]);
      assert 0 <= i - p < j - p < |ventana| && IsUpper(ventana[i - p]) && IsUpper(ventana[j - p]);
    }
  }

  /** Every offset of the window holds an upper-case letter exactly when every index of it in the key does. */
  lemma VentanaTodaMayusculas(clave: string, p: nat, ventana: string)
    requires p + 7 <= |clave| && ventana == clave[p..p + 7]
    ensures (forall k :: 0 <= k < |ventana| ==> IsUpper(ventana[k]))
            <==> (forall k :: p <= k < p + 7 ==> IsUpper(clave[k]))
  {
    if forall k :: p <= k < p + 7 ==> IsUpper(clave[k]) {
      forall k | 0 <= k < |ventana| ensures IsUpper(ventana[k]) {
        assert ventana[k] == clave[p + k];
      }
    }
    if forall k :: 0 <= k < |ventana| ==> IsUpper(ventana[k]) {
      forall k | p <= k < p + 7 ensures IsUpper(clave[k]) {
        assert ventana[k - p] == clave[k];
      }
    }
  }

  /**
   * The boundaries `mayusculas < 2` and `mayusculas == 7` said without
   * counting: the secret-word check passes exactly when the leftmost
   * occurrence holds two upper-case letters at different positions and at
   * least one character that is not upper case.
   */
  lemma CalistoDosMayusculasYUnaNo(clave: string, p: nat)
    requires EsPrimeraCoincidencia(clave, p)
    ensures ContieneCalisto(clave) <==>
              (exists i, j :: p <= i < j < p + 7 && IsUpper(clave[i]) && IsUpper(clave[j]))
              && !(forall k :: p <= k < p + 7 ==> IsUpper(clave[k]))
  {
    ContieneCalistoCorrecto(clave);
    CuentaVentana(clave, p);
    var ventana := clave[p..p + 7];
    CountIfAtLeastTwo(ventana, IsUpper);
    DosMayusculasEnVentana(clave, p, ventana);
    VentanaTodaMayusculas(clave, p, ventana);
  }

  // ---------------------------------------------------------------------------
  // Outcomes on particular keys. The secret-word check on a concrete key is
  // evaluated in steps: lower-casing the key, the search in the lower-cased
  // key, and the window of original characters; each step is a lemma of its
  // own so that every proof stays small.

  /**
   * The secret-word check on a key whose lower-cased form is `minus`, in
   * which the search finds the word at `p`, where the original characters
   * are `ventana`.
   */
  lemma EvaluarCalisto(clave: string, minus: string, p: nat, ventana: string)
    requires Lower(clave) == minus
    requires Find(minus, "calisto") == Some(p)
    requires p + 7 <= |clave| && clave[p..p + 7] == ventana
    ensures ContieneCalisto(clave) <==> 2 <= CountIf(ventana, IsUpper) <= 6
  {
    assert PALABRA_SECRETA == "calisto";
  }

  lemma GanimedesAcepta()
    ensures EsValidaGanimedes("Abcdef1$") == Ok
  {
  }

  lemma GanimedesSinMayuscula()
    ensures EsValidaGanimedes("abcdef1$") == Err(NoTieneLetraMayuscula)
  {
  }

  lemma GanimedesCorta()
    ensures EsValidaGanimedes("A1") == Err(NoCumpleLongitudMinima)
  {
  }

  /** With every class missing, the upper-case error still comes first. */
  lemma GanimedesTodoFalta()
    ensures EsValidaGanimedes("        ") == Err(NoTieneLetraMayuscula)
  {
  }

  /** Length passes, the digit check fails before the secret word is looked at. */
  lemma CalistoSinNumero()
    ensures EsValidaCalisto("calisto") == Err(NoTieneNumero)
  {
  }

  /** No occurrence of the word at all: the secret-word error. */
  lemma CalistoSinPalabra()
    ensures EsValidaCalisto("CalistA12") == Err(NoTienePalabraSecreta)
  {
  }

  /** The search finds the word at index 6 of "abc123calisto". */
  lemma BusquedaAbc123()
    ensures Find("abc123calisto", "calisto") == Some(6)
  {
    var minus, palabra := "abc123calisto", "calisto";
    assert FindFrom(minus, palabra, 6) == Some(6);
    assert FindFrom(minus, palabra, 4) == Some(6);
    assert FindFrom(minus, palabra, 2) == Some(6);
  }

  lemma MinusculasAcepta()
    ensures Lower("abc123CaLiStO") == "abc123calisto" && "abc123CaLiStO"[6..13] == "CaLiStO"
  {
  }

  /** The window "CaLiStO" holds 4 upper-case letters: accepted. */
  lemma CalistoAcepta()
    ensures EsValidaCalisto("abc123CaLiStO") == Ok
  {
    MinusculasAcepta();
    BusquedaAbc123();
    EvaluarCalisto("abc123CaLiStO", "abc123calisto", 6, "CaLiStO");
  }

  lemma MinusculasTodoMayusculas()
    ensures Lower("abc123CALISTO") == "abc123calisto" && "abc123CALISTO"[6..13] == "CALISTO"
  {
  }

  /** All seven letters upper case: count 7 fails. */
  lemma CalistoTodoMayusculas()
    ensures EsValidaCalisto("abc123CALISTO") == Err(NoTienePalabraSecreta)
  {
    MinusculasTodoMayusculas();
    BusquedaAbc123();
    EvaluarCalisto("abc123CALISTO", "abc123calisto", 6, "CALISTO");
  }

  lemma MinusculasUnaMayuscula()
    ensures Lower("1Calisto") == "1calisto" && "1Calisto"[1..8] == "Calisto"
    ensures Find("1calisto", "calisto") == Some(1)
  {
  }

  /** One upper-case letter in the window: count 1 fails. */
  lemma CalistoUnaMayuscula()
    ensures EsValidaCalisto("1Calisto") == Err(NoTienePalabraSecreta)
  {
    MinusculasUnaMayuscula();
    EvaluarCalisto("1Calisto", "1calisto", 1, "Calisto");
  }

  lemma MinusculasDosMayusculas()
    ensures Lower("1CaListo") == "1calisto" && "1CaListo"[1..8] == "CaListo"
    ensures Find("1calisto", "calisto") == Some(1)
  {
  }

  /** Two upper-case letters in the window: count 2 passes. */
  lemma CalistoDosMayusculas()
    ensures EsValidaCalisto("1CaListo") == Ok
  {
    MinusculasDosMayusculas();
    EvaluarCalisto("1CaListo", "1calisto", 1, "CaListo");
  }

  lemma MinusculasSoloPrimera()
    ensures Lower("calisto1CaLiStO") == "calisto1calisto" && "calisto1CaLiStO"[0..7] == "calisto"
    ensures Find("calisto1calisto", "calisto") == Some(0)
  {
  }

  /** Only the first occurrence counts: the acceptable window at index 8 does not rescue the one at 0. */
  lemma CalistoSoloPrimera()
    ensures EsValidaCalisto("calisto1CaLiStO") == Err(NoTienePalabraSecreta)
  {
    MinusculasSoloPrimera();
    EvaluarCalisto("calisto1CaLiStO", "calisto1calisto", 0, "calisto");
  }
}
