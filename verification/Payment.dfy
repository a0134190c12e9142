/** The mock payment provider (payment/mock.py): its intents outlive every request. */
module Payment {
  import opened Decimals
  import opened Orders
  import opened Tables
  import opened Checkout

  class MockPaymentProvider {
    var intents: map<string, Intent>

    constructor ()
      ensures intents == map[]
    {
      intents := map[];
    }

    /** Registers the order's amount under a fresh reference. */
    method CreateIntent(order: Order, providerRef: string)
      modifies this
      ensures intents == old(intents)[providerRef := NewIntent(order.head)]
    {
      intents := intents[providerRef := Intent(order.head.number, order.head.total, order.head.currency, false)];
    }

    /** Captures a known intent; an unknown reference changes nothing. */
    method Confirm(providerRef: string) returns (success: bool)
      modifies this
      ensures success <==> providerRef in old(intents)
      ensures intents == if success then Captured(old(intents), providerRef) else old(intents)
    {
      if providerRef !in intents {
        return false;
      }
      intents := intents[providerRef := intents[providerRef].(captured := true)];
      return true;
    }

    /** Only a captured intent can be refunded; nothing is recorded. */
    method Refund(providerRef: string, amount: Dec) returns (success: bool)
      ensures success <==> providerRef in intents && intents[providerRef].captured
    {
      if providerRef !in intents {
        return false;
      }
      success := intents[providerRef].captured;
    }
  }
}
