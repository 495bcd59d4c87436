/** The order items shared by the order reducer and the `Pedido` class: a
    product with its quantity, and the totals over a list of items. Prices are
    integers (cents), so the arithmetic is exact. */
module Itens {

  datatype Produto = Produto(id: int, categoria: string, descricao: string, preco: int)

  datatype ItemPedido = ItemPedido(produto: Produto, quantidade: int)

  /** Sum of the quantities, accumulated from the front as the source's loop
      does. */
  function TotalQuantidade(itens: seq<ItemPedido>): (total: int)
  {
    if |itens| == 0 then 0
    else TotalQuantidade(itens[..|itens| - 1]) + itens[|itens| - 1].quantidade
  }

  /** Sum of quantity times unit price. */
  function TotalPreco(itens: seq<ItemPedido>): (total: int)
  {
    if |itens| == 0 then 0
    else TotalPreco(itens[..|itens| - 1]) + itens[|itens| - 1].quantidade * itens[|itens| - 1].produto.preco
  }

  /** Sum of the quantities of the items for product `id`. */
  function QuantidadeDoProduto(itens: seq<ItemPedido>, id: int): (total: int)
  {
    if |itens| == 0 then 0
    else
      QuantidadeDoProduto(itens[..|itens| - 1], id)
      + (if itens[|itens| - 1].produto.id == id then itens[|itens| - 1].quantidade else 0)
  }

  predicate TemProduto(itens: seq<ItemPedido>, id: int)
  {
    exists i :: 0 <= i < |itens| && itens[i].produto.id == id
  }

  /** No product has two items. */
  predicate ProdutosDistintos(itens: seq<ItemPedido>)
  {
    forall i, j :: 0 <= i < j < |itens| ==> itens[i].produto.id != itens[j].produto.id
  }

  lemma TotaisAppend(itens: seq<ItemPedido>, x: ItemPedido)
    ensures TotalQuantidade(itens + [x]) == TotalQuantidade(itens) + x.quantidade
    ensures forall id ::
              QuantidadeDoProduto(itens + [x], id)
              == QuantidadeDoProduto(itens, id) + (if x.produto.id == id then x.quantidade else 0)
  {
    assert (itens + [x])[..|itens|] == itens;
  }

  /** Replacing one item changes the totals by the difference of the two
      items' quantities. */
  lemma {:induction false} TotaisUpdate(itens: seq<ItemPedido>, i: nat, x: ItemPedido)
    requires i < |itens|
    ensures TotalQuantidade(itens[i := x]) == TotalQuantidade(itens) - itens[i].quantidade + x.quantidade
    ensures forall id ::
              QuantidadeDoProduto(itens[i := x], id)
              == QuantidadeDoProduto(itens, id)
                 - (if itens[i].produto.id == id then itens[i].quantidade else 0)
                 + (if x.produto.id == id then x.quantidade else 0)
  {
    var n := |itens| - 1;
    if i == n {
      assert itens[i := x][..n] == itens[..n];
    } else {
      assert itens[i := x][..n] == itens[..n][i := x];
      TotaisUpdate(itens[..n], i, x);
    }
  }
}
