/**
 * The wallet onboarding state machine: the steps of the create-wallet path
 * with their successor and predecessor, and the reducer that turns a state
 * and an action into the next state and an effect.
 */
module Onboarding {
  import opened Wrappers

  // ---------------------------------------------------------------------------
  // CreatePathStep: an Int-backed enum
  // ---------------------------------------------------------------------------

  datatype CreatePathStep = CreateWallet | BackupWelcome | BackupPhrase | VerifyPhrase

  /** The implicit raw values 0, 1, 2, 3, in declaration order. */
  function RawValue(step: CreatePathStep): int {
    match step
    case CreateWallet => 0
    case BackupWelcome => 1
    case BackupPhrase => 2
    case VerifyPhrase => 3
  }

  /** `CreatePathStep(rawValue:)`: the failable initialiser. */
  function FromRawValue(raw: int): (r: Option<CreatePathStep>)
    ensures r.Some? <==> 0 <= raw <= 3
    ensures r.Some? ==> RawValue(r.value) == raw
  {
    if raw == 0 then Some(CreateWallet)
    else if raw == 1 then Some(BackupWelcome)
    else if raw == 2 then Some(BackupPhrase)
    else if raw == 3 then Some(VerifyPhrase)
    else None
  }

  /** `next`: the step whose raw value is one more. */
  function Next(step: CreatePathStep): Option<CreatePathStep> {
    FromRawValue(RawValue(step) + 1)
  }

  /** `previous`: the step whose raw value is one less. */
  function Previous(step: CreatePathStep): Option<CreatePathStep> {
    FromRawValue(RawValue(step) - 1)
  }

  /** Raw values identify steps. */
  lemma RawValueRoundTrip(step: CreatePathStep)
    ensures FromRawValue(RawValue(step)) == Some(step)
  {
  }

  /** `next` is defined for every step but the last; `previous` for every
      step but the first. */
  lemma NextPreviousDefined(step: CreatePathStep)
    ensures Next(step).None? <==> step == VerifyPhrase
    ensures Previous(step).None? <==> step == CreateWallet
  {
  }

  /** Where defined, `next` and `previous` undo each other. */
  lemma NextPreviousInverse(step: CreatePathStep)
    ensures Previous(step).Some? ==> Next(Previous(step).value) == Some(step)
    ensures Next(step).Some? ==> Previous(Next(step).value) == Some(step)
  {
    RawValueRoundTrip(step);
  }

  // ---------------------------------------------------------------------------
  // State, actions, effects and the reducer
  // ---------------------------------------------------------------------------

  datatype Path = Create(step: CreatePathStep) | Restore

  datatype OnboardingState = OnboardingState(path: Option<Path>, recoveryPhrase: Option<string>)

  datatype OnboardingAction =
    | MoveForward
    | FetchRecoveryPhrase
    | RecoveryPhraseFetched(phrase: string)
    | SetupButtonTapped
    | RestoreButtonTapped

  /** What the reducer returns besides the new state: `.none`, or the future
      that asks the keyring controller for its mnemonic. */
  datatype Effect = NoEffect | FetchMnemonic

  /** The action the `FetchMnemonic` effect feeds back once the keyring
      controller delivers `phrase`. */
  function MnemonicDelivered(phrase: string): OnboardingAction {
    RecoveryPhraseFetched(phrase)
  }

  /** The state the reducer leaves after `action`. */
  function Transition(state: OnboardingState, action: OnboardingAction): OnboardingState {
    match action
    case MoveForward => state
    case FetchRecoveryPhrase => state
    case RecoveryPhraseFetched(phrase) => state.(recoveryPhrase := Some(phrase))
    case SetupButtonTapped => state.(path := Some(Create(CreateWallet)))
    case RestoreButtonTapped => state.(path := Some(Restore))
  }

  /** The effect the reducer returns for `action`. */
  function EffectOf(action: OnboardingAction): Effect {
    if action.FetchRecoveryPhrase? then FetchMnemonic else NoEffect
  }

  /** `onboardingReducer`: assigns the fields of the `inout` state that the
      action concerns and returns the effect. */
  method Reduce(state: OnboardingState, action: OnboardingAction)
    returns (next: OnboardingState, effect: Effect)
    ensures next == Transition(state, action)
    ensures effect == EffectOf(action)
  {
    next := state;
    effect := NoEffect;
    match action {
      case MoveForward =>
      case FetchRecoveryPhrase =>
        effect := FetchMnemonic;
      case RecoveryPhraseFetched(phrase) =>
        next := next.(recoveryPhrase := Some(phrase));
      case SetupButtonTapped =>
        next := next.(path := Some(Create(CreateWallet)));
      case RestoreButtonTapped =>
        next := next.(path := Some(Restore));
    }
  }

  /** `setupButtonTapped` starts the create path and keeps the phrase. */
  lemma SetupStartsCreatePath(state: OnboardingState)
    ensures Transition(state, SetupButtonTapped).path == Some(Create(CreateWallet))
    ensures Transition(state, SetupButtonTapped).recoveryPhrase == state.recoveryPhrase
    ensures EffectOf(SetupButtonTapped) == NoEffect
  {
  }

  /** `restoreButtonTapped` starts the restore path and keeps the phrase. */
  lemma RestoreStartsRestorePath(state: OnboardingState)
    ensures Transition(state, RestoreButtonTapped).path == Some(Restore)
    ensures Transition(state, RestoreButtonTapped).recoveryPhrase == state.recoveryPhrase
    ensures EffectOf(RestoreButtonTapped) == NoEffect
  {
  }

  /** `recoveryPhraseFetched(p)` stores `p` and keeps the path. */
  lemma PhraseFetchedStoresPhrase(state: OnboardingState, phrase: string)
    ensures Transition(state, RecoveryPhraseFetched(phrase)).recoveryPhrase == Some(phrase)
    ensures Transition(state, RecoveryPhraseFetched(phrase)).path == state.path
  {
  }

  /** `moveForward` and `fetchRecoveryPhrase` leave the state alone; only the
      latter has an effect. */
  lemma MoveForwardAndFetchKeepState(state: OnboardingState)
    ensures Transition(state, MoveForward) == state && EffectOf(MoveForward) == NoEffect
    ensures Transition(state, FetchRecoveryPhrase) == state && EffectOf(FetchRecoveryPhrase) == FetchMnemonic
  {
  }

  /** Tapping either button twice is the same as tapping it once. */
  lemma ButtonsIdempotent(state: OnboardingState, action: OnboardingAction)
    requires action.SetupButtonTapped? || action.RestoreButtonTapped?
    ensures Transition(Transition(state, action), action) == Transition(state, action)
  {
  }

  /** Fetching the phrase and feeding back what the keyring delivers stores
      that phrase and nothing else. */
  lemma FetchRoundTrip(state: OnboardingState, phrase: string)
    ensures EffectOf(FetchRecoveryPhrase) == FetchMnemonic
    ensures Transition(Transition(state, FetchRecoveryPhrase), MnemonicDelivered(phrase))
      == state.(recoveryPhrase := Some(phrase))
  {
  }
}
