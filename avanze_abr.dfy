/**
 * The earlier draft of the genealogy tree (Avanze_ABR.cpp). Its node record,
 * buscarPorID, esAncestro, preorden and inorden are the same as in the final
 * version and are shared with module ArbolBinario. Two things differ and
 * are modelled here: insertarPersona sets the padre of the new node only
 * once a free slot is found, and the ancestry report lists the ancestors
 * from the padre up to the root, each beside the sibling of the node below
 * it.
 */
module AvanzeAbr {
  import opened Arena
  import opened ArbolBinario

  /**
   * insertarPersona of the draft: the same three checks as the final
   * version, then nueva goes into the first free slot of the padre (izq
   * before der) and only then gets its padre. A padre with two children
   * rejects it, and every failure leaves the arena exactly as it was.
   */
  method InsertarPersona(nodos: map<Ref, Nodo>, raiz: Option<Ref>, ghost f: Forma, nueva: Ref, padreID: string)
    returns (r: Outcome, nodos': map<Ref, Nodo>, ghost f': Forma)
    requires Valido(nodos, raiz, f) && nueva in nodos
    requires nueva !in f.miembros ==> nodos[nueva].izq.None? && nodos[nueva].der.None?
    ensures Valido(nodos', raiz, f')
    ensures
      var p, v := BuscarPorID(nodos, f, raiz, padreID), nodos[nueva];
      if p.None? then r == Fail(PadreNoEncontrado) && nodos' == nodos && f' == f
      else if v.padre.Some? then r == Fail(YaTienePadre) && nodos' == nodos && f' == f
      else if nueva in Camino(nodos, raiz, f, p) then r == Fail(CreariaCiclo) && nodos' == nodos && f' == f
      else
        var q := nodos[p.value];
        if q.izq.None? then
          && r == Pass && f'.miembros == f.miembros + {nueva}
          && nodos' == nodos[p.value := q.(izq := Some(nueva))][nueva := v.(padre := p)]
        else if q.der.None? then
          && r == Pass && f'.miembros == f.miembros + {nueva}
          && nodos' == nodos[p.value := q.(der := Some(nueva))][nueva := v.(padre := p)]
        else
          r == Fail(PadreLleno) && nodos' == nodos && f' == f
    ensures IdsUnicos(nodos, f) && IdLibre(nodos, f, nodos[nueva].id) ==> IdsUnicos(nodos', f')
  {
    var padre := BuscarPorID(nodos, f, raiz, padreID);
    if padre.None? {
      return Fail(PadreNoEncontrado), nodos, f;
    }
    if nodos[nueva].padre.Some? {
      return Fail(YaTienePadre), nodos, f;
    }
    var ciclo := EsAncestro(nodos, raiz, f, nueva, padre);
    if ciclo {
      return Fail(CreariaCiclo), nodos, f;
    }
    var p := padre.value;
    // a parentless member is the root, and the root ends every chain
    ghost var c := Camino(nodos, raiz, f, padre);
    assert c[|c| - 1] in c;
    assert nueva !in f.miembros;
    r, nodos', f' := Colocar(nodos, raiz, f, nueva, p);
  }

  /**
   * The slot step of the draft's insertarPersona, for a parentless,
   * childless nueva outside the tree and a padre p inside it: the izq slot
   * of p when free, else its der slot, is set to nueva, and then the padre
   * of nueva to p; with both slots taken nothing is written.
   */
  method Colocar(nodos: map<Ref, Nodo>, ghost raiz: Option<Ref>, ghost f: Forma, nueva: Ref, p: Ref)
    returns (r: Outcome, nodos': map<Ref, Nodo>, ghost f': Forma)
    requires Valido(nodos, raiz, f) && p in f.miembros && nueva in nodos && nueva !in f.miembros
    requires nodos[nueva].padre.None? && nodos[nueva].izq.None? && nodos[nueva].der.None?
    ensures Valido(nodos', raiz, f')
    ensures
      var q, v := nodos[p], nodos[nueva];
      if q.izq.None? then
        && r == Pass && f' == Colgado(f, nueva, p)
        && nodos' == nodos[p := q.(izq := Some(nueva))][nueva := v.(padre := Some(p))]
      else if q.der.None? then
        && r == Pass && f' == Colgado(f, nueva, p)
        && nodos' == nodos[p := q.(der := Some(nueva))][nueva := v.(padre := Some(p))]
      else
        r == Fail(PadreLleno) && nodos' == nodos && f' == f
    ensures IdsUnicos(nodos, f) && IdLibre(nodos, f, nodos[nueva].id) ==> IdsUnicos(nodos', f')
  {
    var q, v := nodos[p], nodos[nueva];
    if q.izq.None? {
      nodos' := nodos[p := q.(izq := Some(nueva))][nueva := v.(padre := Some(p))];
      Enganchar(nodos, nodos', raiz, f, nueva, p, true);
      return Pass, nodos', Colgado(f, nueva, p);
    } else if q.der.None? {
      nodos' := nodos[p := q.(der := Some(nueva))][nueva := v.(padre := Some(p))];
      Enganchar(nodos, nodos', raiz, f, nueva, p, false);
      return Pass, nodos', Colgado(f, nueva, p);
    } else {
      return Fail(PadreLleno), nodos, f;
    }
  }

  /**
   * Case 1 of the draft's menu: the same steps as anadirPersona of the
   * final version (new node, duplicate check, names, root or insertion,
   * delete on failure), calling the draft's insertarPersona.
   */
  method AnadirPersona(nodos: map<Ref, Nodo>, raiz: Option<Ref>, ghost f: Forma, nueva: Ref,
                       id: string, nombre: string, apellido: string, padreID: string)
    returns (r: Outcome, nodos': map<Ref, Nodo>, raiz': Option<Ref>, ghost f': Forma)
    requires Valido(nodos, raiz, f) && IdsUnicos(nodos, f)
    requires nueva !in nodos
    ensures Valido(nodos', raiz', f') && IdsUnicos(nodos', f')
    ensures r.Fail? ==> nodos' == nodos && raiz' == raiz && f' == f
    ensures BuscarPorID(nodos, f, raiz, id).Some? ==> r == Fail(IdDuplicado)
    ensures raiz.None? ==>
              && r == Pass && raiz' == Some(nueva) && f'.miembros == {nueva}
              && nodos' == nodos[nueva := Suelto(id, nombre, apellido)]
    ensures
      var p := BuscarPorID(nodos, f, raiz, padreID);
      raiz.Some? && BuscarPorID(nodos, f, raiz, id).None? ==>
        if p.None? then r == Fail(PadreNoEncontrado)
        else
          var q := nodos[p.value];
          if q.izq.Some? && q.der.Some? then r == Fail(PadreLleno)
          else
            && r == Pass && raiz' == raiz
            && nodos' == (if q.izq.None? then nodos[p.value := q.(izq := Some(nueva))]
                          else nodos[p.value := q.(der := Some(nueva))])
                         [nueva := Suelto(id, nombre, apellido).(padre := p)]
    ensures r == Pass ==> f'.miembros == f.miembros + {nueva} && BuscarPorID(nodos', f', raiz', id) == Some(nueva)
  {
    // new Nodo(): empty strings and NULL pointers; then the id is read in
    var arena := nodos[nueva := Suelto(id, "", "")];
    FueraDelArbol(nodos, arena, raiz, f);
    BuscarFuera(nodos, arena, f, raiz, id);
    if raiz.Some? && BuscarPorID(arena, f, raiz, id).Some? {
      // delete nueva
      Descartado(nodos, nueva, Suelto(id, "", ""), Suelto(id, "", ""));
      nodos' := arena - {nueva};
      assert nodos' == nodos;
      return Fail(IdDuplicado), nodos', raiz, f;
    }
    // the names are read in and the pointers set to NULL
    var leida := Suelto(id, nombre, apellido);
    arena := nodos[nueva := leida];
    if raiz.None? {
      NuevaRaiz(arena, f, nueva);
      return Pass, arena, Some(nueva), SoloRaiz(f, nueva);
    }
    FueraDelArbol(nodos, arena, raiz, f);
    BuscarFuera(nodos, arena, f, raiz, id);
    BuscarFuera(nodos, arena, f, raiz, padreID);
    BuscarDesdeRaiz(arena, raiz, f, id);
    ghost var p := BuscarPorID(nodos, f, raiz, padreID);
    if p.Some? {
      ghost var q := nodos[p.value];
      ReescritoTrasOtro(nodos, nueva, p.value, leida, q.(izq := Some(nueva)), leida.(padre := p));
      ReescritoTrasOtro(nodos, nueva, p.value, leida, q.(der := Some(nueva)), leida.(padre := p));
    }
    var ok, tras, f2 := InsertarPersona(arena, raiz, f, nueva, padreID);
    if ok.Fail? {
      // delete nueva
      Descartado(nodos, nueva, leida, leida);
      nodos' := tras - {nueva};
      assert nodos' == nodos;
      return ok, nodos', raiz, f;
    }
    BuscarDesdeRaiz(tras, raiz, f2, id);
    return Pass, tras, raiz, f2;
  }

  /** One line of the draft's report: the level number, the padre shown and the sibling shown under it. */
  datatype Ancestro = Ancestro(numero: nat, padre: Ref, hermano: Option<Ref>)

  /**
   * The draft's sibling test for actual under its padre q: the izq child
   * when it is there and is not actual, else the der child under the same
   * condition, else none.
   */
  function HermanoDe(q: Nodo, actual: Ref): (h: Option<Ref>)
    ensures h.Some? ==> h.value != actual && (h == q.izq || h == q.der)
    ensures h.None? <==> (q.izq.None? || q.izq == Some(actual)) && (q.der.None? || q.der == Some(actual))
    ensures q.izq.Some? && q.izq != Some(actual) ==> h == q.izq
  {
    if q.izq.Some? && q.izq != Some(actual) then q.izq
    else if q.der.Some? && q.der != Some(actual) then q.der
    else None
  }

  /**
   * Line k + 1 of the draft's report along the chain c (persona first):
   * the padre c[k + 1] of c[k], beside the other child of that padre.
   */
  ghost function AncestroDe(nodos: map<Ref, Nodo>, c: seq<Ref>, k: nat): Ancestro
    requires Cadena(nodos, c) && k < |c| - 1
  {
    assert Eslabon(nodos, c[k], c[k + 1]);
    Ancestro(k + 1, c[k + 1], OtroHijo(nodos[c[k + 1]], c[k]))
  }

  /** Reference definition of the draft's report along c: one line per proper ancestor, nearest first. */
  ghost function Ancestros(nodos: map<Ref, Nodo>, c: seq<Ref>): (n: seq<Ancestro>)
    requires Cadena(nodos, c)
    ensures |n| == |c| - 1
    ensures forall k :: 0 <= k < |n| ==> n[k] == AncestroDe(nodos, c, k)
  {
    seq(|c| - 1, k requires 0 <= k < |c| - 1 => AncestroDe(nodos, c, k))
  }

  /**
   * mostrarAscendencia(persona): a NULL persona gives no lines; otherwise
   * the walk up the padre chain of persona, which in a tree ends at the
   * root.
   */
  method MostrarAscendencia(nodos: map<Ref, Nodo>, ghost raiz: Option<Ref>, ghost f: Forma, persona: Option<Ref>)
    returns (lineas: seq<Ancestro>)
    requires Valido(nodos, raiz, f) && EnArbol(f, persona)
    ensures persona.None? ==> lineas == []
    ensures persona.Some? ==> && Cadena(nodos, Camino(nodos, raiz, f, persona))
                              && lineas == Ancestros(nodos, Camino(nodos, raiz, f, persona))
  {
    if persona.None? {
      return [];
    }
    CaminoEsCadena(nodos, raiz, f, persona.value);
    lineas := SubirPorPadres(nodos, Camino(nodos, raiz, f, persona), persona.value);
  }

  /**
   * The loop of mostrarAscendencia along the padre chain c of persona:
   * while the current node has a padre, the level count goes up, a line is
   * added for that padre and the sibling of the current node, and the
   * walk moves to the padre.
   */
  method SubirPorPadres(nodos: map<Ref, Nodo>, ghost c: seq<Ref>, persona: Ref) returns (lineas: seq<Ancestro>)
    requires Cadena(nodos, c) && c[0] == persona
    ensures lineas == Ancestros(nodos, c)
  {
    lineas := [];
    var actual := persona;
    var nivel: nat := 0;
    while nodos[actual].padre.Some?
      invariant nivel < |c| && actual == c[nivel]
      invariant nivel < |c| - 1 ==> Eslabon(nodos, c[nivel], c[nivel + 1])
      invariant |lineas| == nivel
      invariant forall k :: 0 <= k < nivel ==> lineas[k] == AncestroDe(nodos, c, k)
      decreases |c| - nivel
    {
      var padre := nodos[actual].padre.value;
      nivel := nivel + 1;
      lineas := lineas + [Ancestro(nivel, padre, HermanoDe(nodos[padre], actual))];
      actual := padre;
    }
  }

  /**
   * The draft's report of a member has one line per proper ancestor: the
   * first shows its padre, each next one the padre of the one before, and
   * the last the root, so the root itself gets no line. Each sibling shown
   * is what the draft's slot test picks.
   */
  lemma AncestrosHastaLaRaiz(nodos: map<Ref, Nodo>, raiz: Option<Ref>, f: Forma, persona: Ref)
    requires Valido(nodos, raiz, f) && persona in f.miembros
    ensures Cadena(nodos, Camino(nodos, raiz, f, Some(persona)))
    ensures var n := Ancestros(nodos, Camino(nodos, raiz, f, Some(persona)));
      && |n| == f.prof[persona]
      && (|n| == 0 <==> raiz == Some(persona))
      && (|n| > 0 ==> Some(n[0].padre) == nodos[persona].padre && Some(n[|n| - 1].padre) == raiz)
      && (forall k :: 0 <= k < |n| - 1 ==> Some(n[k + 1].padre) == nodos[n[k].padre].padre)
      && (forall k :: 0 <= k < |n| ==> n[k].numero == k + 1)
  {
    var c := Camino(nodos, raiz, f, Some(persona));
    CaminoEsCadena(nodos, raiz, f, persona);
    var n := Ancestros(nodos, c);
    if |n| > 0 {
      assert Eslabon(nodos, c[0], c[1]);
    }
    forall k | 0 <= k < |n| - 1
      ensures Some(n[k + 1].padre) == nodos[n[k].padre].padre
    {
      assert Eslabon(nodos, c[k + 1], c[k + 2]);
    }
  }

  /** Along a padre chain the draft's sibling test picks the other child of the padre. */
  lemma HermanoDeEnCadena(nodos: map<Ref, Nodo>, c: seq<Ref>, k: nat)
    requires Cadena(nodos, c) && k < |c| - 1
    ensures var a := AncestroDe(nodos, c, k);
      a.hermano == HermanoDe(nodos[a.padre], c[k])
  {
    assert Eslabon(nodos, c[k], c[k + 1]);
  }

  /**
   * The two reports name the same ancestors in opposite orders: line k + 1
   * of the draft shows the padre that the final version shows |c| - 1 - k
   * levels from the top, beside the same sibling, which the final version
   * shows on the level of the node below it.
   */
  lemma InformesCoinciden(nodos: map<Ref, Nodo>, c: seq<Ref>, k: nat)
    requires Cadena(nodos, c) && k < |c| - 1
    ensures Ancestros(nodos, c)[k].padre == Niveles(nodos, c)[|c| - 2 - k].persona
    ensures Ancestros(nodos, c)[k].hermano == Niveles(nodos, c)[|c| - 1 - k].hermano
  {
  }
}
